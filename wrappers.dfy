/** Option, the error values of the creator, Result, and a left fold over a
    sequence whose steps may fail. A Python exception raised anywhere in a
    discovery run aborts the whole run, so every failing step is modelled as
    an `Err` that the caller passes straight on. */
module Wrappers {

  datatype Option<+T> = None | Some(value: T)

  /** The exceptions the modelled code can raise, one per cause. */
  datatype Error =
    | InvalidRange(range: string)               // an exclude-network token that ip_network rejects
    | InvalidAlias(entry: string)               // an alias token that does not split into two parts
    | AddressValueError(address: string)        // IPv4Address() on a string that is no IPv4 address
    | NoInterfaceType(name: string)             // type_name[0] when the type regex did not match
    | NoHostName                                // the host-name regex applied to None
    | NoNeighbor(port: string)                  // an LLDP port whose neighbour table is empty
    | UnknownDevice(device: string)             // testbed.devices[...] on a missing name
    | UnknownInterface(device: string, name: string) // device.interfaces[...] on a missing name
    | MissingCredential(device: string)         // credentials['default']['username'] is missing
    | EmptyProxyList(device: string)            // new_proxy[-1] on an empty proxy list
    | UnboundAddress(device: string)            // the loop variable ip read before any assignment
    | UnboundConnection(device: string)         // the loop variable connect read before any assignment
    | BadTopology(device: string)               // a topology entry without an interfaces mapping

  datatype Result<+T> = Ok(value: T) | Err(error: Error)

  /** Applies `step` to the elements of `es` from left to right, stopping at
      the first error. Defined on the last element so that a loop over a
      prefix extends the fold by one call per iteration. */
  function Fold<S, E>(step: (S, E) -> Result<S>, s0: S, es: seq<E>): Result<S>
    decreases |es|
  {
    if es == [] then Ok(s0)
    else
      match Fold(step, s0, es[..|es| - 1])
      case Err(e) => Err(e)
      case Ok(s) => step(s, es[|es| - 1])
  }

  /** Extending a prefix by one element costs exactly one step. */
  lemma FoldPrefix<S, E>(step: (S, E) -> Result<S>, s0: S, es: seq<E>, i: nat)
    requires i < |es|
    ensures Fold(step, s0, es[..i + 1]) ==
            match Fold(step, s0, es[..i])
            case Err(e) => Err(e)
            case Ok(s) => step(s, es[i])
  {
    assert es[..i + 1][..i] == es[..i];
  }

  /** Once a prefix has failed, the whole fold fails with the same error. */
  lemma {:induction false} FoldErrSticky<S, E>(step: (S, E) -> Result<S>, s0: S, es: seq<E>, i: nat)
    requires i <= |es|
    requires Fold(step, s0, es[..i]).Err?
    ensures Fold(step, s0, es) == Fold(step, s0, es[..i])
    decreases |es| - i
  {
    if i < |es| {
      FoldPrefix(step, s0, es, i);
      FoldErrSticky(step, s0, es, i + 1);
    } else {
      assert es[..i] == es;
    }
  }

  /** One iteration of a loop that computes a fold and stops at the first
      error: the prefix grows by one step, and an error there is the result
      of the whole fold. */
  lemma FoldNext<S, E>(step: (S, E) -> Result<S>, s0: S, es: seq<E>, i: nat, s: S)
    requires i < |es| && Fold(step, s0, es[..i]) == Ok(s)
    ensures Fold(step, s0, es[..i + 1]) == step(s, es[i])
    ensures step(s, es[i]).Err? ==> Fold(step, s0, es) == step(s, es[i])
  {
    FoldPrefix(step, s0, es, i);
    if step(s, es[i]).Err? {
      FoldErrSticky(step, s0, es, i + 1);
    }
  }

  /** A fold over a concatenation is the second fold started from the first. */
  lemma {:induction false} FoldAppend<S, E>(step: (S, E) -> Result<S>, s0: S, a: seq<E>, b: seq<E>)
    ensures Fold(step, s0, a + b) ==
            match Fold(step, s0, a)
            case Err(e) => Err(e)
            case Ok(s) => Fold(step, s, b)
    decreases |b|
  {
    if b == [] {
      assert a + b == a;
    } else {
      var b' := b[..|b| - 1];
      assert (a + b)[..|a + b| - 1] == a + b';
      assert (a + b)[|a + b| - 1] == b[|b| - 1];
      FoldAppend(step, s0, a, b');
    }
  }

  /** A property every successful step keeps holds of the fold's result. */
  lemma {:induction false} FoldInvariant<S, E>(step: (S, E) -> Result<S>, inv: S -> bool, s0: S, es: seq<E>)
    requires inv(s0)
    requires forall s, e :: inv(s) && step(s, e).Ok? ==> inv(step(s, e).value)
    ensures Fold(step, s0, es).Ok? ==> inv(Fold(step, s0, es).value)
    decreases |es|
  {
    if es != [] {
      FoldInvariant(step, inv, s0, es[..|es| - 1]);
    }
  }

  /** The elements of the sequences of `ss`, in order. */
  function Flatten<E>(ss: seq<seq<E>>): seq<E>
    decreases |ss|
  {
    if ss == [] then [] else Flatten(ss[..|ss| - 1]) + ss[|ss| - 1]
  }

  /** The elements of a prefix of `ss` come first. */
  lemma {:induction false} FlattenPrefix<E>(ss: seq<seq<E>>, i: nat)
    requires i <= |ss|
    ensures Flatten(ss[..i]) <= Flatten(ss)
    decreases |ss|
  {
    if i < |ss| {
      var pre := ss[..|ss| - 1];
      assert pre[..i] == ss[..i];
      FlattenPrefix(pre, i);
    } else {
      assert ss[..i] == ss;
    }
  }

  /** A nested loop over `ss` that stops at the first error: once the
      elements of `ss[..i]` have failed, the fold over all of them has. */
  lemma FoldFlattenErr<S, E>(step: (S, E) -> Result<S>, s0: S, ss: seq<seq<E>>, i: nat)
    requires i <= |ss|
    requires Fold(step, s0, Flatten(ss[..i])).Err?
    ensures Fold(step, s0, Flatten(ss)) == Fold(step, s0, Flatten(ss[..i]))
  {
    FlattenPrefix(ss, i);
    var es := Flatten(ss);
    assert es[..|Flatten(ss[..i])|] == Flatten(ss[..i]);
    FoldErrSticky(step, s0, es, |Flatten(ss[..i])|);
  }
}
