/** The probe's lineage rewrite: children of `steam` are reported under a name of their own. */
module Steam {
  import opened Bits
  import opened Fingerprint

  const TASK_COMM_LEN := 16

  const STEAM_APP: Bytes := "steam_app\0"

  /** `name` followed by a NUL starts `comm`, and there is room for both. */
  ghost predicate Matches(comm: Bytes, name: Bytes) {
    |name| < |comm| && comm[..|name|] == name && comm[|name|] == '\0'
  }

  method CommEq(comm: array<u8>, name: Bytes) returns (same: bool)
    requires comm.Length == 16
    ensures same <==> Matches(comm[..], name)
  {
    if |name| >= TASK_COMM_LEN {
      return false;
    }
    var i := 0;
    while i < |name|
      invariant i <= |name| && comm[..i] == name[..i]
    {
      if comm[i] != name[i] {
        assert comm[..][i] != name[i];
        return false;
      }
      i := i + 1;
    }
    same := comm[|name|] == '\0';
  }

  lemma {:induction false} CStrOfMatch(comm: Bytes, name: Bytes)
    requires '\0' !in name && Matches(comm, name)
    ensures CStr(comm) == name
  {
    if name == [] {
    } else {
      assert comm[0] == name[0] && name[0] in name;
      assert comm[1..][..|name| - 1] == name[1..];
      CStrOfMatch(comm[1..], name[1..]);
    }
  }

  lemma {:induction false} CStrIsPrefix(comm: Bytes)
    ensures var s := CStr(comm);
            && '\0' !in s && |s| <= |comm| && comm[..|s|] == s
            && (|s| < |comm| ==> comm[|s|] == '\0')
  {
    if comm == [] || comm[0] == '\0' {
    } else {
      CStrIsPrefix(comm[1..]);
    }
  }

  /** A NUL-free name matches exactly if it is the C string in a buffer that has room for its end. */
  lemma MatchIsCString(comm: Bytes, name: Bytes)
    requires '\0' !in name
    ensures Matches(comm, name) <==> |name| < |comm| && CStr(comm) == name
  {
    CStrIsPrefix(comm);
    if Matches(comm, name) {
      CStrOfMatch(comm, name);
    }
  }

  /** The filename field as the rewrite leaves it: the token, then zeros. */
  ghost predicate Rewritten(filename: Bytes) {
    filename == "steam_app" + seq(119, _ => '\0')
  }

  method WriteSteamApp(filename: array<u8>)
    requires filename.Length == FILENAME_LEN
    modifies filename
    ensures Rewritten(filename[..])
  {
    forall k | 0 <= k < filename.Length {
      filename[k] := '\0';
    }
    var i := 0;
    while i < |STEAM_APP| && i < FILENAME_LEN
      invariant i <= |STEAM_APP|
      invariant filename[..i] == STEAM_APP[..i]
      invariant forall j :: i <= j < FILENAME_LEN ==> filename[j] == '\0'
    {
      filename[i] := STEAM_APP[i];
      i := i + 1;
    }
    assert STEAM_APP == "steam_app" + ['\0'];
    assert filename[..] == STEAM_APP + seq(118, _ => '\0');
    assert ['\0'] + seq(118, _ => '\0') == seq(119, _ => '\0');
  }

  /** The rewrite step of the probe; an unreadable parent counts as no match. */
  method TagLineage(filename: array<u8>, parentComm: array?<u8>)
    requires filename.Length == FILENAME_LEN
    requires parentComm != null ==> parentComm.Length == 16 && parentComm != filename
    modifies filename
    ensures if parentComm != null && CStr(old(parentComm[..])) == "steam" then Rewritten(filename[..])
            else filename[..] == old(filename[..])
  {
    if parentComm != null {
      MatchIsCString(parentComm[..], "steam");
      var same := CommEq(parentComm, "steam");
      if same {
        WriteSteamApp(filename);
      }
    }
  }

  // ---------------------------------------------------------------- end to end

  lemma {:induction false} AsciiIsUtf8(s: Bytes)
    requires forall i :: 0 <= i < |s| ==> s[i] as int <= 0x7F
    ensures Utf8(s)
  {
    if s == [] {
    } else {
      AsciiIsUtf8(s[1..]);
    }
  }

  /** Whatever the buffer held before, a rewritten filename decodes to `steam_app`. */
  lemma RewrittenName(filename: Bytes)
    requires Rewritten(filename)
    ensures FilenameStr(filename) == "steam_app"
  {
    var name: Bytes := "steam_app";
    assert filename[..9] == name;
    CStrOfMatch(filename, name);
    AsciiIsUtf8(name);
  }

  /** A plain name with an underscore where `.exe` would start normalises to itself. */
  lemma TokenNormalises(name: Bytes)
    requires |name| == 9 && Plain(name) && name[5] == '_'
    ensures Normalise(name) == name
  {
    BasenameOfPlain(name);
    assert Lower(name) == name;
    assert name[|name| - 4..][0] == '_';
  }

  lemma TokenIsWord20()
    ensures Word(20) == "steam_app"
  {
  }

  /** The token normalises to itself and is word 20. */
  lemma SteamAppIsAWord()
    ensures Normalise("steam_app") == Word(20) == "steam_app"
  {
    TokenIsWord20();
    TokenNormalises("steam_app");
  }

  lemma SteamHits(names: seq<Bytes>, filename: Bytes, k: nat)
    requires Rewritten(filename) && k < |names| && names[k] == FilenameStr(filename)
    ensures Hit(names, 20)
  {
    RewrittenName(filename);
    SteamAppIsAWord();
  }

  /** A window with word 20 is labelled as a game unless it has a build tool. */
  lemma GamingUnlessCompiling(names: seq<Bytes>)
    requires Hit(names, 20)
    ensures var w := SoftLabel(MultiHot(names));
            && (w == Compiling || w == Gaming)
            && (w == Gaming <==> forall i: nat :: i < 17 ==> !Hit(names, i))
  {
    var hot := MultiHot(names);
    assert hot[20] > 0.0;
    assert AnySet(hot, COMPILE_END, GAMING_END);
    if i: nat :| i < COMPILE_END && Hit(names, i) {
      assert hot[i] > 0.0;
    }
  }

  /**
   A window with a rewritten event has fingerprint bit 20 set and label Compiling or Gaming; it is
   Gaming exactly if no name of the window is a build tool.
   */
  lemma SteamWindowIsGaming(names: seq<Bytes>, filename: Bytes, k: nat)
    requires Rewritten(filename) && k < |names| && names[k] == FilenameStr(filename)
    ensures Bit(FingerprintOf(names), 20)
    ensures var w := SoftLabel(MultiHot(names));
            && (w == Compiling || w == Gaming)
            && (w == Gaming <==> forall i: nat :: i < 17 ==> !Hit(names, i))
  {
    SteamHits(names, filename, k);
    FingerprintBit(names, 20);
    GamingUnlessCompiling(names);
  }
}
