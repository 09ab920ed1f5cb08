/** `get_os` (topology.py lines 517-535): the operating system a neighbour
    runs, read from the software-version and platform strings it reports. */
module OsClassifier {
  import opened Wrappers
  import opened Text

  /** `SUPPORTED_OS` (line 25). */
  const SupportedOs: seq<string> := ["nxos", "iosxr", "iosxe", "ios"]

  /** `word in a or word in b`. */
  predicate Mentions(a: string, b: string, word: string) {
    Contains(a, word) || Contains(b, word)
  }

  /** The rules in the order the source checks them; a string that matches
      none gives `None`. */
  function GetOs(system: string, platform: string): Option<string> {
    if Mentions(system, platform, "IOS") then
      if Mentions(system, platform, "XE") then Some("iosxe")
      else if Mentions(system, platform, "XR") then Some("iosxr")
      else Some("ios")
    else if Mentions(system, platform, "NX-OS") then Some("nxos")
    else None
  }

  /** Every classification is a supported OS, and each one is reached by
      exactly the combination of markers the rules describe. */
  lemma GetOsSpec(system: string, platform: string)
    ensures var r := GetOs(system, platform);
      (r.Some? ==> r.value in SupportedOs) &&
      (r == Some("iosxe") <==> Mentions(system, platform, "IOS") && Mentions(system, platform, "XE")) &&
      (r == Some("iosxr") <==> Mentions(system, platform, "IOS") && !Mentions(system, platform, "XE") &&
                               Mentions(system, platform, "XR")) &&
      (r == Some("ios") <==> Mentions(system, platform, "IOS") && !Mentions(system, platform, "XE") &&
                             !Mentions(system, platform, "XR")) &&
      (r == Some("nxos") <==> !Mentions(system, platform, "IOS") && Mentions(system, platform, "NX-OS")) &&
      (r.None? <==> !Mentions(system, platform, "IOS") && !Mentions(system, platform, "NX-OS"))
  {
  }

  /** The two strings play the same part: swapping them changes nothing. */
  lemma GetOsSymmetric(system: string, platform: string)
    ensures GetOs(system, platform) == GetOs(platform, system)
  {
  }

  /** A description such as "Cisco IOS XE Software" is always IOS-XE, never
      plain IOS or IOS-XR, whatever the other string says. */
  lemma GetOsXePrecedence(system: string, platform: string)
    requires Contains(system, "IOS") && Contains(system, "XE")
    ensures GetOs(system, platform) == Some("iosxe")
  {
  }

  /** A word put between two strings is mentioned by the result. */
  lemma ContainsBetween(x: string, word: string, y: string)
    ensures Contains(x + word + y, word)
  {
    assert (x + word + y)[|x|..|x| + |word|] == word;
    assert OccursAt(x + word + y, word, |x|);
  }

  /** A description as IOS-XE devices report it. */
  lemma GetOsExample()
    ensures GetOs("Cisco IOS XE Software", "") == Some("iosxe")
  {
    assert "Cisco " + "IOS" + " XE Software" == "Cisco IOS XE Software";
    ContainsBetween("Cisco ", "IOS", " XE Software");
    assert "Cisco IOS " + "XE" + " Software" == "Cisco IOS XE Software";
    ContainsBetween("Cisco IOS ", "XE", " Software");
  }

  /** The NX-OS marker alone, which does not hold "IOS". */
  lemma GetOsNxosExample()
    ensures GetOs("NX-OS", "") == Some("nxos")
  {
    assert "" + "NX-OS" + "" == "NX-OS";
    ContainsBetween("", "NX-OS", "");
    var b := "NX-OS";
    assert !Contains(b, "IOS") by {
      forall i: nat ensures !OccursAt(b, "IOS", i) {
        if i + 3 <= |b| { assert b[i..i + 3][0] == b[i]; }
      }
    }
  }
}
