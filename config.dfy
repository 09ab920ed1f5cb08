/** The two option strings `_generate` reads before discovery starts
    (topology.py lines 117-129): `exclude_network`, a blank-separated list of
    IPv4 ranges, and `alias`, a blank-separated list of `device:alias`
    pairs. */
module Options {
  import opened Wrappers
  import opened Text
  import opened IPv4

  /** A token is a range `ip_network` accepts. */
  predicate IsRange(t: string) { ParseNetwork(t).Some? }

  /** Reads every range of the option, in order. The first token that is not
      a strict IPv4 network aborts with `InvalidRange`. */
  method ParseExcludeNetworks(option: string) returns (r: Result<seq<Network>>)
    ensures r.Ok? <==> forall t :: t in SplitWhitespace(option) ==> IsRange(t)
    ensures r.Ok? ==> var toks := SplitWhitespace(option);
      |r.value| == |toks| &&
      forall i :: 0 <= i < |toks| ==> ParseNetwork(toks[i]) == Some(r.value[i]) && ValidNetwork(r.value[i])
    ensures r.Err? ==> var toks := SplitWhitespace(option);
      exists i :: 0 <= i < |toks| && !IsRange(toks[i]) && r.error == InvalidRange(toks[i]) &&
                  forall j :: 0 <= j < i ==> IsRange(toks[j])
  {
    var toks := SplitWhitespace(option);
    var nets: seq<Network> := [];
    var i := 0;
    while i < |toks|
      invariant 0 <= i <= |toks|
      invariant |nets| == i
      invariant forall j :: 0 <= j < i ==> ParseNetwork(toks[j]) == Some(nets[j])
    {
      var n := ParseNetwork(toks[i]);
      if n.None? {
        assert toks[i] in toks && !IsRange(toks[i]);
        return Err(InvalidRange(toks[i]));
      }
      nets := nets + [n.value];
      i := i + 1;
    }
    assert forall t :: t in toks ==> IsRange(t) by {
      forall t | t in toks ensures IsRange(t) {
        var j :| 0 <= j < |toks| && toks[j] == t;
      }
    }
    return Ok(nets);
  }

  /** The key and the alias of a well-formed `device:alias` token. */
  predicate IsAliasEntry(t: string) { |SplitOn(t, ':')| == 2 }

  function AliasKey(t: string): string requires IsAliasEntry(t) { SplitOn(t, ':')[0] }

  function AliasName(t: string): string requires IsAliasEntry(t) { SplitOn(t, ':')[1] }

  /** Token `j` is the last of `toks` that names its device. */
  predicate IsLastFor(toks: seq<string>, j: nat)
    requires forall l :: 0 <= l < |toks| ==> IsAliasEntry(toks[l])
    requires j < |toks|
  {
    forall l :: j < l < |toks| ==> AliasKey(toks[l]) != AliasKey(toks[j])
  }

  /** The dictionary the tokens build, one assignment per token. */
  function AliasMap(toks: seq<string>): map<string, string>
    requires forall j :: 0 <= j < |toks| ==> IsAliasEntry(toks[j])
  {
    if toks == [] then map[]
    else
      var t := toks[|toks| - 1];
      AliasMap(toks[..|toks| - 1])[AliasKey(t) := AliasName(t)]
  }

  /** The devices with an alias are exactly the devices the tokens name. */
  lemma {:induction false} AliasMapKeys(toks: seq<string>, k: string)
    requires forall j :: 0 <= j < |toks| ==> IsAliasEntry(toks[j])
    ensures k in AliasMap(toks) <==> exists j :: 0 <= j < |toks| && AliasKey(toks[j]) == k
  {
    if toks != [] {
      var pre := toks[..|toks| - 1];
      AliasMapKeys(pre, k);
      assert forall j :: 0 <= j < |pre| ==> pre[j] == toks[j];
      if exists j :: 0 <= j < |toks| && AliasKey(toks[j]) == k {
        var j :| 0 <= j < |toks| && AliasKey(toks[j]) == k;
        if j < |pre| { assert AliasKey(pre[j]) == k; }
      }
    }
  }

  /** Each device gets the alias of the last token that names it. */
  lemma {:induction false} AliasMapLastWins(toks: seq<string>, j: nat)
    requires forall l :: 0 <= l < |toks| ==> IsAliasEntry(toks[l])
    requires j < |toks| && IsLastFor(toks, j)
    ensures AliasKey(toks[j]) in AliasMap(toks)
    ensures AliasMap(toks)[AliasKey(toks[j])] == AliasName(toks[j])
  {
    var pre := toks[..|toks| - 1];
    if j < |pre| {
      assert forall l :: 0 <= l < |pre| ==> pre[l] == toks[l];
      assert IsLastFor(pre, j);
      AliasMapLastWins(pre, j);
    }
  }

  /** One more well-formed token is one more assignment, on top of any
      dictionary the tokens are entered into. */
  lemma AliasMapNext(m: map<string, string>, toks: seq<string>, i: nat)
    requires i < |toks| && forall j :: 0 <= j <= i ==> IsAliasEntry(toks[j])
    ensures m + AliasMap(toks[..i + 1]) == (m + AliasMap(toks[..i]))[AliasKey(toks[i]) := AliasName(toks[i])]
  {
    assert toks[..i + 1][..i] == toks[..i];
  }
}
