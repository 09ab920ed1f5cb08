/** The two regular expressions of the creator.

    Host names: `^.*?(?P<hostname>[-\w]+)\s?`, applied with `re.match` to the
    name a neighbour reports (topology.py lines 284 and 368). The lazy `.*?`
    stops at the first character that can start `[-\w]+`, and it cannot cross
    a newline; the greedy `[-\w]+` then takes the whole run; `\s?` always
    succeeds, so nothing backtracks. When the pattern does not match, the
    caller keeps the name unchanged.

    Interface types: `.+?(?=\d)` (lines 243 and 616), the shortest non-empty
    prefix, again without a newline, that a digit follows; the caller lower-
    cases it and fails (`type_name[0]` on `None`) when there is none. */
module Names {
  import opened Wrappers
  import opened Text

  /** `[-\w]`, with `\w` restricted to ASCII. */
  predicate IsHostChar(c: char) { IsWordChar(c) || c == '-' }

  /** `[-\w]+` can start at `i`, and `.*?` can reach `i`. */
  predicate CanStartAt(s: string, i: nat) {
    i < |s| && IsHostChar(s[i]) && forall k :: 0 <= k < i ==> s[k] != '\n'
  }

  /** `s[i..i + n]` is a maximal run of host characters. */
  predicate MaximalRun(s: string, i: nat, n: nat) {
    i + n <= |s| &&
    (forall k :: i <= k < i + n ==> IsHostChar(s[k])) &&
    (i + n == |s| || !IsHostChar(s[i + n]))
  }

  /** `h` is the run `re.match` returns: it starts at the first place
      `[-\w]+` can start, and it is maximal. */
  predicate IsFirstRun(s: string, i: nat, h: string) {
    CanStartAt(s, i) && (forall k :: 0 <= k < i ==> !CanStartAt(s, k)) &&
    |h| > 0 && MaximalRun(s, i, |h|) && h == s[i..i + |h|]
  }

  function HostRunLength(s: string): (n: nat)
    ensures MaximalRun(s, 0, n)
  {
    if s == [] || !IsHostChar(s[0]) then 0
    else
      var n := HostRunLength(s[1..]);
      assert MaximalRun(s[1..], 0, n);
      n + 1
  }

  /** Where the lazy `.*?` first tries `[-\w]+` successfully, or where it
      is stopped (a newline or the end of the string). */
  function ScanStart(s: string): (i: nat)
    ensures i <= |s|
    ensures forall k :: 0 <= k < i ==> !IsHostChar(s[k]) && s[k] != '\n'
    ensures i < |s| ==> IsHostChar(s[i]) || s[i] == '\n'
  {
    if s == [] || IsHostChar(s[0]) || s[0] == '\n' then 0 else 1 + ScanStart(s[1..])
  }

  /** The `hostname` group of the match, or `None` when there is no match. */
  function MatchHostName(s: string): (r: Option<string>)
    ensures r.Some? <==> exists i: nat :: CanStartAt(s, i)
    ensures r.Some? ==> exists i: nat :: IsFirstRun(s, i, r.value)
  {
    var i := ScanStart(s);
    if i < |s| && IsHostChar(s[i]) then
      var n := HostRunLength(s[i..]);
      assert MaximalRun(s[i..], 0, n);
      assert CanStartAt(s, i);
      assert s[i..][..n] == s[i..i + n];
      assert IsFirstRun(s, i, s[i..i + n]);
      Some(s[i..i + n])
    else
      assert forall j: nat :: !CanStartAt(s, j) by {
        forall j: nat ensures !CanStartAt(s, j) {
          if j < i {
          } else if j < |s| {
            assert s[i] == '\n';
          }
        }
      }
      None
  }

  /** The host name the creator records for a neighbour name. */
  function NormaliseHost(raw: string): string {
    match MatchHostName(raw)
    case Some(h) => h
    case None => raw
  }

  /** The normalised name is the first maximal host-character run, or the
      input itself when the pattern does not match. */
  lemma NormaliseHostSpec(raw: string)
    ensures (exists i: nat :: CanStartAt(raw, i)) ==>
      var h := NormaliseHost(raw);
      exists i: nat :: IsFirstRun(raw, i, h)
    ensures (forall i: nat :: !CanStartAt(raw, i)) ==> NormaliseHost(raw) == raw
  {
    var m := MatchHostName(raw);
    if m.Some? {
      assert NormaliseHost(raw) == m.value;
    } else {
      assert NormaliseHost(raw) == raw;
    }
  }

  /** Normalising twice gives the same name as normalising once. */
  lemma NormaliseHostIdempotent(raw: string)
    ensures NormaliseHost(NormaliseHost(raw)) == NormaliseHost(raw)
  {
    if MatchHostName(raw).Some? {
      var v := MatchHostName(raw).value;
      var i: nat :| IsFirstRun(raw, i, v);
      forall k | 0 <= k < |v| ensures IsHostChar(v[k]) {
        assert v[k] == raw[i + k];
        assert i <= i + k < i + |v|;
      }
      NormaliseHostOfRun(v);
    }
  }

  /** A name made only of host characters is already normal. */
  lemma NormaliseHostOfRun(v: string)
    requires |v| > 0 && forall k :: 0 <= k < |v| ==> IsHostChar(v[k])
    ensures NormaliseHost(v) == v
  {
    assert ScanStart(v) == 0;
    AllHostRun(v);
    assert v[0..|v|] == v;
  }

  lemma {:induction false} AllHostRun(v: string)
    requires forall k :: 0 <= k < |v| ==> IsHostChar(v[k])
    ensures HostRunLength(v) == |v|
  {
    if v != [] {
      AllHostRun(v[1..]);
    }
  }

  /** A fully qualified name keeps its first first. */
  lemma NormaliseHostFirstLabel(first: string, sep: char, rest: string)
    requires |first| > 0 && forall k :: 0 <= k < |first| ==> IsHostChar(first[k])
    requires !IsHostChar(sep)
    ensures NormaliseHost(first + [sep] + rest) == first
  {
    var s := first + [sep] + rest;
    assert ScanStart(s) == 0;
    assert s[0..] == s;
    LeadingRun(first, [sep] + rest);
    assert s == first + ([sep] + rest);
    assert s[0..|first|] == first;
  }

  lemma {:induction false} LeadingRun(first: string, tail: string)
    requires forall k :: 0 <= k < |first| ==> IsHostChar(first[k])
    requires tail == [] || !IsHostChar(tail[0])
    ensures HostRunLength(first + tail) == |first|
  {
    if first != [] {
      assert (first + tail)[1..] == first[1..] + tail;
      LeadingRun(first[1..], tail);
    } else {
      assert first + tail == tail;
    }
  }

  /** The name from the discovery scenario. */
  lemma NormaliseHostExample()
    ensures NormaliseHost("edge1.example.com") == "edge1"
  {
    assert "edge1" + ['.'] + "example.com" == "edge1.example.com";
    NormaliseHostFirstLabel("edge1", '.', "example.com");
  }

  /** A name with a hyphen keeps it. */
  lemma NormaliseHostHyphenExample()
    ensures NormaliseHost("n77-1.cisco.com") == "n77-1"
  {
    assert "n77-1" + ['.'] + "cisco.com" == "n77-1.cisco.com";
    NormaliseHostFirstLabel("n77-1", '.', "cisco.com");
  }

  // ---------------------------------------------------------------------
  // Interface types.

  /** `.+?` can have consumed `s[..k]` with a digit next. */
  predicate TypeCut(s: string, k: nat) {
    1 <= k < |s| && IsDigit(s[k]) && forall m :: 0 <= m < k ==> s[m] != '\n'
  }

  /** The lazy `.+?` consumes one more character per attempt, starting with
      one; `k` is the number consumed so far. */
  function FindCut(s: string, k: nat): (r: Option<nat>)
    requires 1 <= k <= |s| + 1
    requires forall m :: 0 <= m < k - 1 ==> s[m] != '\n'
    requires forall m :: 1 <= m < k ==> !TypeCut(s, m)
    ensures r.Some? ==> TypeCut(s, r.value) && forall m :: 1 <= m < r.value ==> !TypeCut(s, m)
    ensures r.None? ==> forall m: nat :: !TypeCut(s, m)
    decreases |s| - k
  {
    if k >= |s| then None
    else if s[k - 1] == '\n' then
      assert forall m: nat :: m >= k ==> !TypeCut(s, m);
      None
    else if IsDigit(s[k]) then Some(k)
    else FindCut(s, k + 1)
  }

  /** The match of `.+?(?=\d)`, or `None`. */
  function MatchTypePrefix(s: string): (r: Option<string>)
    ensures r.Some? <==> exists k: nat :: TypeCut(s, k)
    ensures r.Some? ==> exists k: nat :: TypeCut(s, k) && r.value == s[..k] &&
                                         forall m :: 1 <= m < k ==> !TypeCut(s, m)
  {
    match FindCut(s, 1)
    case None => None
    case Some(k) => Some(s[..k])
  }

  /** `type_name[0].lower()`: the interface type, or the error raised when
      the name has no digit after its first character. */
  function InterfaceType(name: string): (r: Result<string>)
    ensures r.Ok? <==> exists k: nat :: TypeCut(name, k)
    ensures r.Ok? ==> exists k: nat :: TypeCut(name, k) && r.value == Lower(name[..k]) &&
                                       forall m :: 1 <= m < k ==> !TypeCut(name, m)
    ensures r.Err? ==> r.error == NoInterfaceType(name)
  {
    match MatchTypePrefix(name)
    case Some(p) => Ok(Lower(p))
    case None => Err(NoInterfaceType(name))
  }

  /** A name made of a prefix without newlines and without digits after
      its first character, then a digit, has that prefix as its type. */
  lemma InterfaceTypeOfPrefix(prefix: string, d: char, rest: string)
    requires |prefix| > 0
    requires forall m :: 0 <= m < |prefix| ==> prefix[m] != '\n'
    requires forall m :: 1 <= m < |prefix| ==> !IsDigit(prefix[m])
    requires IsDigit(d)
    ensures InterfaceType(prefix + [d] + rest) == Ok(Lower(prefix))
  {
    var s := prefix + [d] + rest;
    assert TypeCut(s, |prefix|);
    assert forall m :: 1 <= m < |prefix| ==> !TypeCut(s, m) by {
      forall m | 1 <= m < |prefix| ensures !TypeCut(s, m) {
        assert s[m] == prefix[m];
      }
    }
    assert s[..|prefix|] == prefix;
  }

  /** The type of a typical interface name. */
  lemma InterfaceTypeExample()
    ensures InterfaceType("GigabitEthernet0/1") == Ok("gigabitethernet")
  {
    var p := "GigabitEthernet";
    InterfaceTypeOfPrefix(p, '0', "/1");
    assert p + ['0'] + "/1" == "GigabitEthernet0/1";
    var t := "gigabitethernet";
    assert |Lower(p)| == |t|;
    forall i | 0 <= i < |t| ensures Lower(p)[i] == t[i] {
      assert Lower(p)[i] == LowerChar(p[i]);
    }
    assert Lower(p) == t;
  }

  /** A name without any digit has no type. */
  lemma InterfaceTypeNeedsDigit(name: string)
    requires forall m :: 0 <= m < |name| ==> !IsDigit(name[m])
    ensures InterfaceType(name) == Err(NoInterfaceType(name))
  {
  }
}
