/** From process names to the bucket key, the soft label and the prior governor. */
module Fingerprint {
  import opened Numbers
  import opened Wrappers
  import opened Bits

  /** A byte is written as the character of its code. */
  type u8 = c: char | c as int < 256 witness '\0'

  type Bytes = seq<u8>

  const FILENAME_LEN := 128

  datatype ProcessEvent = ProcessEvent(pid: u32, filename: Bytes)

  const VOCAB_LEN := 51
  const COMPILE_END := 17
  const GAMING_END := 31
  const BROWSING_END := 41

  /** The vocabulary: the word each bit stands for. */
  function Word(i: nat): Bytes
    requires i < VOCAB_LEN
  {
    match i
    // build tools
    case 0 => "rustc"
    case 1 => "cargo"
    case 2 => "cc"
    case 3 => "c++"
    case 4 => "gcc"
    case 5 => "g++"
    case 6 => "clang"
    case 7 => "clang++"
    case 8 => "make"
    case 9 => "gmake"
    case 10 => "ninja"
    case 11 => "cmake"
    case 12 => "ld"
    case 13 => "lld"
    case 14 => "rust-lld"
    case 15 => "collect2"
    case 16 => "as"
    // games and their runners
    case 17 => "steam"
    case 18 => "steamwebhelper"
    case 19 => "steamos-logger"
    case 20 => "steam_app"
    case 21 => "csgo"
    case 22 => "cs2"
    case 23 => "dota2"
    case 24 => "proton"
    case 25 => "proton-run"
    case 26 => "wine"
    case 27 => "wine64"
    case 28 => "wineserver"
    case 29 => "lutris"
    case 30 => "gamesoverlayui"
    // browsers and light desktop use
    case 31 => "firefox"
    case 32 => "chrome"
    case 33 => "chromium"
    case 34 => "brave"
    case 35 => "msedge"
    case 36 => "spotify"
    case 37 => "code"
    case 38 => "electron"
    case 39 => "slack"
    case 40 => "discord"
    // shells and services
    case 41 => "bash"
    case 42 => "zsh"
    case 43 => "sh"
    case 44 => "fish"
    case 45 => "systemd"
    case 46 => "sshd"
    case 47 => "sleep"
    case 48 => "login"
    case 49 => "sudo"
    case _ => "pacman"
  }

  datatype Workload = Compiling | Gaming | Browsing | Idle

  // ---------------------------------------------------------------- names

  /** The bytes before the first NUL, or all of them. */
  function CStr(bytes: Bytes): Bytes {
    if bytes == [] || bytes[0] == '\0' then [] else [bytes[0]] + CStr(bytes[1..])
  }

  predicate Within(c: u8, lo: int, hi: int) {
    lo <= c as int <= hi
  }

  predicate Continues(s: Bytes, i: nat) {
    i < |s| && Within(s[i], 0x80, 0xBF)
  }

  /** The length of a well-formed UTF-8 sequence at the start of `s`, or 0 if there is none. */
  function Utf8Lead(s: Bytes): (n: nat)
    ensures n <= |s|
  {
    if s == [] then 0
    else if Within(s[0], 0, 0x7F) then 1
    else if |s| < 2 then 0
    else if Within(s[0], 0xC2, 0xDF) && Continues(s, 1) then 2
    else if |s| < 3 || !Continues(s, 1) || !Continues(s, 2) then 0
    else if (s[0] as int == 0xE0 && Within(s[1], 0xA0, 0xBF))
            || Within(s[0], 0xE1, 0xEC)
            || (s[0] as int == 0xED && Within(s[1], 0x80, 0x9F))
            || Within(s[0], 0xEE, 0xEF) then 3
    else if |s| < 4 || !Continues(s, 3) then 0
    else if (s[0] as int == 0xF0 && Within(s[1], 0x90, 0xBF))
            || Within(s[0], 0xF1, 0xF3)
            || (s[0] as int == 0xF4 && Within(s[1], 0x80, 0x8F)) then 4
    else 0
  }

  predicate Utf8(s: Bytes) {
    s == [] || (Utf8Lead(s) > 0 && Utf8(s[Utf8Lead(s)..]))
  }

  function FilenameStr(bytes: Bytes): Bytes {
    var s := CStr(bytes);
    if Utf8(s) then s else "?"
  }

  /** What follows the last slash. */
  function Basename(path: Bytes): Bytes {
    if path == [] || path[|path| - 1] == '/' then []
    else Basename(path[..|path| - 1]) + [path[|path| - 1]]
  }

  function LowerByte(c: u8): u8 {
    if 'A' <= c <= 'Z' then c + 32 as char else c
  }

  function Lower(s: Bytes): Bytes {
    seq(|s|, i requires 0 <= i < |s| => LowerByte(s[i]))
  }

  function StripExe(s: Bytes): Bytes {
    if |s| >= 4 && s[|s| - 4..] == ".exe" then s[..|s| - 4] else s
  }

  function Normalise(name: Bytes): Bytes {
    StripExe(Lower(Basename(name)))
  }

  /** A name without slashes and capital letters. */
  predicate Plain(name: Bytes) {
    forall i :: 0 <= i < |name| ==> name[i] != '/' && !('A' <= name[i] <= 'Z')
  }

  lemma {:induction false} BasenameOfPlain(s: Bytes)
    requires '/' !in s
    ensures Basename(s) == s
  {
    if s == [] {
    } else {
      BasenameOfPlain(s[..|s| - 1]);
    }
  }

  lemma {:induction false} BasenameOfPath(dir: Bytes, file: Bytes)
    requires '/' !in file
    ensures Basename(dir + "/" + file) == file
  {
    if file == [] {
      assert dir + "/" + file == dir + "/";
    } else {
      var n := |file| - 1;
      var path := dir + "/" + file;
      assert path[..|path| - 1] == dir + "/" + file[..n];
      BasenameOfPath(dir, file[..n]);
    }
  }

  /** Directories are dropped, and one `.exe`: a plain name counts as itself wherever it is found. */
  lemma PathsNormalise(dir: Bytes, name: Bytes)
    requires Plain(name)
    ensures Normalise(dir + "/" + (name + ".exe")) == name
    ensures |name| < 4 || name[|name| - 4..] != ".exe" ==> Normalise(dir + "/" + name) == name
  {
    var exe := name + ".exe";
    assert forall i :: 0 <= i < |exe| ==> exe[i] == if i < |name| then name[i] else ".exe"[i - |name|];
    BasenameOfPath(dir, exe);
    BasenameOfPath(dir, name);
    assert Lower(exe) == exe && Lower(name) == name;
    assert exe[|exe| - 4..] == ".exe" && exe[..|exe| - 4] == name;
  }

  function Upper(s: Bytes): Bytes {
    seq(|s|, i requires 0 <= i < |s| => if 'a' <= s[i] <= 'z' then s[i] - 32 as char else s[i])
  }

  /** Capital letters make no difference. */
  lemma CapitalsNormalise(dir: Bytes, name: Bytes)
    requires Plain(name)
    ensures Normalise(dir + "/" + Upper(name)) == Normalise(dir + "/" + name)
  {
    BasenameOfPath(dir, Upper(name));
    BasenameOfPath(dir, name);
    assert Lower(Upper(name)) == name && Lower(name) == name;
  }

  // ---------------------------------------------------------------- encoding

  /** `iter().position`: the first word equal to `base`, from index i on. */
  function PositionFrom(base: Bytes, i: nat): (r: Option<nat>)
    requires i <= VOCAB_LEN
    ensures r.None? ==> forall j :: i <= j < VOCAB_LEN ==> Word(j) != base
    ensures r.Some? ==> i <= r.value < VOCAB_LEN && Word(r.value) == base
    decreases VOCAB_LEN - i
  {
    if i == VOCAB_LEN then None
    else if Word(i) == base then Some(i)
    else PositionFrom(base, i + 1)
  }

  /** No word occurs twice. */
  lemma WordsDiffer(i: nat, j: nat)
    requires i < j < VOCAB_LEN
    ensures Word(i) != Word(j)
  {
  }

  /** Where the groups of the vocabulary begin and end. */
  lemma GroupEnds()
    ensures VOCAB_LEN == 51
    ensures Word(0) == "rustc" && Word(1) == "cargo" && Word(16) == "as"
    ensures Word(17) == "steam" && Word(30) == "gamesoverlayui"
    ensures Word(31) == "firefox" && Word(40) == "discord"
    ensures Word(41) == "bash" && Word(50) == "pacman"
  {
  }

  /** The names the games group must know. */
  lemma GameTokens()
    ensures Word(20) == "steam_app" && Word(24) == "proton" && Word(27) == "wine64" && Word(29) == "lutris"
  {
  }

  /** A filename that is not UTF-8 stands for no word. */
  lemma UnreadableIsNoWord(bytes: Bytes, i: nat)
    requires !Utf8(CStr(bytes)) && i < VOCAB_LEN
    ensures FilenameStr(bytes) == "?" && Normalise(FilenameStr(bytes)) != Word(i)
  {
    var mark: Bytes := "?";
    BasenameOfPlain(mark);
    assert Lower(mark) == mark;
    assert |Word(i)| >= 2;
  }

  /** Some name of the window is, after normalisation, the i-th word. */
  predicate Hit(names: seq<Bytes>, i: nat)
    requires i < VOCAB_LEN
  {
    exists k :: 0 <= k < |names| && Normalise(names[k]) == Word(i)
  }

  function MultiHot(names: seq<Bytes>): seq<real> {
    seq(VOCAB_LEN, i requires 0 <= i < VOCAB_LEN => if Hit(names, i) then 1.0 else 0.0)
  }

  /** One more name sets the bit of its word and no other. */
  lemma HitStep(names: seq<Bytes>, name: Bytes, i: nat)
    requires i < VOCAB_LEN
    ensures Hit(names + [name], i) <==> Hit(names, i) || PositionFrom(Normalise(name), 0) == Some(i)
  {
    var all := names + [name];
    var p := PositionFrom(Normalise(name), 0);
    if Hit(names, i) {
      var k :| 0 <= k < |names| && Normalise(names[k]) == Word(i);
      assert all[k] == names[k];
    } else if Normalise(name) == Word(i) {
      assert all[|names|] == name;
      if p.value != i {
        WordsDiffer(if p.value < i then p.value else i, if p.value < i then i else p.value);
      }
    }
  }

  lemma MultiHotStep(names: seq<Bytes>, name: Bytes)
    ensures var p, hot := PositionFrom(Normalise(name), 0), MultiHot(names);
            MultiHot(names + [name]) == if p.Some? then hot[p.value := 1.0] else hot
  {
    forall i: nat | i < VOCAB_LEN
      ensures Hit(names + [name], i) <==> Hit(names, i) || PositionFrom(Normalise(name), 0) == Some(i)
    {
      HitStep(names, name, i);
    }
  }

  /** The encoding loop. */
  method EncodeNames(names: seq<Bytes>) returns (v: seq<real>)
    ensures v == MultiHot(names)
    ensures |v| == 51 && forall i :: 0 <= i < |v| ==> v[i] in {0.0, 1.0}
  {
    var vec := new real[VOCAB_LEN](_ => 0.0);
    for n := 0 to |names|
      invariant vec[..] == MultiHot(names[..n])
    {
      assert names[..n + 1] == names[..n] + [names[n]];
      MultiHotStep(names[..n], names[n]);
      var idx := PositionFrom(Normalise(names[n]), 0);
      if idx.Some? {
        vec[idx.value] := 1.0;
      }
    }
    assert names[..|names|] == names;
    v := vec[..];
  }

  // ---------------------------------------------------------------- the key

  function BitsUpTo(v: seq<real>, n: nat): (bits: nat)
    requires n <= |v|
  {
    if n == 0 then 0
    else if v[n - 1] > 0.0 then Or(BitsUpTo(v, n - 1), Pow2(n - 1))
    else BitsUpTo(v, n - 1)
  }

  lemma {:induction false} BitsUpToFit(v: seq<real>, n: nat)
    requires n <= |v|
    ensures BitsUpTo(v, n) < Pow2(n)
  {
    if n == 0 {
    } else {
      BitsUpToFit(v, n - 1);
      OrBelow(BitsUpTo(v, n - 1), Pow2(n - 1), n);
    }
  }

  lemma {:induction false} BitUpTo(v: seq<real>, n: nat, i: nat)
    requires n <= |v|
    ensures Bit(BitsUpTo(v, n), i) <==> i < n && v[i] > 0.0
  {
    if n == 0 {
      NoBits(i);
    } else {
      BitUpTo(v, n - 1, i);
      OrBit(BitsUpTo(v, n - 1), Pow2(n - 1), i);
      Pow2Bit(n - 1, i);
    }
  }

  function BitsOf(v: seq<real>): u64 {
    var n := Min(64, |v|);
    BitsUpToFit(v, n);
    Pow2Grows(n, 64);
    Pow2Of64();
    BitsUpTo(v, n)
  }

  /** The bit-setting loop over the first 64 entries. */
  method FingerprintBits(v: seq<real>) returns (bits: u64)
    ensures bits == BitsOf(v)
  {
    Pow2Of64();
    bits := 0;
    for i := 0 to Min(64, |v|)
      invariant bits == BitsUpTo(v, i)
    {
      BitsUpToFit(v, i + 1);
      Pow2Grows(i + 1, 64);
      if v[i] > 0.0 {
        bits := Or(bits, Pow2(i));
      }
    }
  }

  function FingerprintOf(names: seq<Bytes>): u64 {
    BitsOf(MultiHot(names))
  }

  /** Bit i of the fingerprint is set exactly if some name normalises to word i. */
  lemma FingerprintBit(names: seq<Bytes>, i: nat)
    ensures Bit(FingerprintOf(names), i) <==> i < VOCAB_LEN && Hit(names, i)
  {
    BitUpTo(MultiHot(names), VOCAB_LEN, i);
  }

  lemma SameWord(i: nat, j: nat)
    requires i < VOCAB_LEN && j < VOCAB_LEN && Word(i) == Word(j)
    ensures i == j
  {
    if i < j {
      WordsDiffer(i, j);
    } else if j < i {
      WordsDiffer(j, i);
    }
  }

  lemma WordAloneHits(name: Bytes, i: nat, j: nat)
    requires i < VOCAB_LEN && j < VOCAB_LEN && Normalise(name) == Word(i)
    ensures Hit([name], j) <==> i == j
  {
    if Hit([name], j) {
      SameWord(i, j);
    } else {
      assert [name][0] == name;
    }
  }

  /** A window with one name that stands for a word has that word's bit and no other. */
  lemma WordAlone(name: Bytes, i: nat)
    requires i < VOCAB_LEN && Normalise(name) == Word(i)
    ensures FingerprintOf([name]) == Pow2(i)
  {
    forall j: nat
      ensures Bit(FingerprintOf([name]), j) <==> Bit(Pow2(i), j)
    {
      FingerprintBit([name], j);
      Pow2Bit(i, j);
      if j < VOCAB_LEN {
        WordAloneHits(name, i, j);
      }
    }
    SameBits(FingerprintOf([name]), Pow2(i));
  }

  lemma HitConcat(names: seq<Bytes>, more: seq<Bytes>, i: nat)
    requires i < VOCAB_LEN
    ensures Hit(names + more, i) <==> Hit(names, i) || Hit(more, i)
  {
    var all := names + more;
    assert forall k :: 0 <= k < |names| ==> all[k] == names[k];
    assert forall k :: 0 <= k < |more| ==> all[|names| + k] == more[k];
    if Hit(more, i) {
      var k :| 0 <= k < |more| && Normalise(more[k]) == Word(i);
      assert Normalise(all[|names| + k]) == Word(i);
    }
    if Hit(all, i) {
      var k :| 0 <= k < |all| && Normalise(all[k]) == Word(i);
      assert if k < |names| then all[k] == names[k] else all[k] == more[k - |names|];
    }
  }

  /** The fingerprint of two windows together is the OR of their fingerprints. */
  lemma FingerprintOfConcat(names: seq<Bytes>, more: seq<Bytes>)
    ensures FingerprintOf(names + more) == Or(FingerprintOf(names), FingerprintOf(more))
  {
    var all := names + more;
    forall i: nat
      ensures Bit(FingerprintOf(all), i) <==> Bit(Or(FingerprintOf(names), FingerprintOf(more)), i)
    {
      FingerprintBit(names, i);
      FingerprintBit(more, i);
      FingerprintBit(all, i);
      OrBit(FingerprintOf(names), FingerprintOf(more), i);
      if i < VOCAB_LEN {
        HitConcat(names, more, i);
      }
    }
    SameBits(FingerprintOf(all), Or(FingerprintOf(names), FingerprintOf(more)));
  }

  lemma HitsCarryOver(names: seq<Bytes>, others: seq<Bytes>, i: nat)
    requires i < VOCAB_LEN && forall name :: name in names ==> name in others
    ensures Hit(names, i) ==> Hit(others, i)
  {
    if Hit(names, i) {
      var k :| 0 <= k < |names| && Normalise(names[k]) == Word(i);
      assert names[k] in others;
    }
  }

  /** Order and repetition of the names do not matter. */
  lemma FingerprintIgnoresOrder(names: seq<Bytes>, others: seq<Bytes>)
    requires forall name :: name in names <==> name in others
    ensures FingerprintOf(names) == FingerprintOf(others)
  {
    forall i: nat
      ensures Bit(FingerprintOf(names), i) <==> Bit(FingerprintOf(others), i)
    {
      FingerprintBit(names, i);
      FingerprintBit(others, i);
      if i < VOCAB_LEN {
        HitsCarryOver(names, others, i);
        HitsCarryOver(others, names, i);
      }
    }
    SameBits(FingerprintOf(names), FingerprintOf(others));
  }

  /** Different multi-hot vectors have different fingerprints. */
  lemma FingerprintIsInjective(v: seq<real>, w: seq<real>)
    requires |v| == |w| <= 64
    requires forall i :: 0 <= i < |v| ==> v[i] in {0.0, 1.0} && w[i] in {0.0, 1.0}
    requires BitsOf(v) == BitsOf(w)
    ensures v == w
  {
    forall i | 0 <= i < |v|
      ensures v[i] == w[i]
    {
      BitUpTo(v, |v|, i);
      BitUpTo(w, |w|, i);
    }
  }

  // ---------------------------------------------------------------- labels and priors

  /** Some entry of the range is set; a range past the end counts as clear. */
  predicate AnySet(v: seq<real>, start: nat, end: nat) {
    end <= |v| && exists i :: start <= i < end && v[i] > 0.0
  }

  lemma AnyHit(names: seq<Bytes>, start: nat, end: nat)
    requires end <= VOCAB_LEN
    ensures AnySet(MultiHot(names), start, end) <==> exists i: nat :: start <= i < end && Hit(names, i)
  {
    var hot := MultiHot(names);
    if i: nat :| start <= i < end && Hit(names, i) {
      assert hot[i] > 0.0;
    }
  }

  function SoftLabel(v: seq<real>): Workload {
    if AnySet(v, 0, COMPILE_END) then Compiling
    else if AnySet(v, COMPILE_END, GAMING_END) then Gaming
    else if AnySet(v, GAMING_END, BROWSING_END) then Browsing
    else Idle
  }

  predicate AnyBit(bits: nat, start: nat, end: nat) {
    exists i: nat :: start <= i < end && Bit(bits, i)
  }

  function LabelOf(bits: nat): Workload {
    if AnyBit(bits, 0, COMPILE_END) then Compiling
    else if AnyBit(bits, COMPILE_END, GAMING_END) then Gaming
    else if AnyBit(bits, GAMING_END, BROWSING_END) then Browsing
    else Idle
  }

  lemma HeavyByBits(bits: nat)
    ensures LabelOf(bits) == Compiling || LabelOf(bits) == Gaming <==> AnyBit(bits, 0, 31)
  {
    if AnyBit(bits, 0, 31) {
      var i: nat :| i < 31 && Bit(bits, i);
      assert AnyBit(bits, 0, 17) || AnyBit(bits, 17, 31);
    }
  }

  lemma AnySetIsAnyBit(v: seq<real>, start: nat, end: nat)
    requires |v| == VOCAB_LEN && end <= VOCAB_LEN
    ensures AnySet(v, start, end) <==> AnyBit(BitsOf(v), start, end)
  {
    forall i: nat
      ensures Bit(BitsOf(v), i) <==> i < |v| && v[i] > 0.0
    {
      BitUpTo(v, |v|, i);
    }
    if AnySet(v, start, end) {
      var i :| start <= i < end && v[i] > 0.0;
      assert Bit(BitsOf(v), i);
    }
  }

  /** The label, computed from the vector, is a function of the fingerprint. */
  lemma LabelIsOfFingerprint(v: seq<real>)
    requires |v| == VOCAB_LEN
    ensures SoftLabel(v) == LabelOf(BitsOf(v))
  {
    AnySetIsAnyBit(v, 0, COMPILE_END);
    AnySetIsAnyBit(v, COMPILE_END, GAMING_END);
    AnySetIsAnyBit(v, GAMING_END, BROWSING_END);
  }

  /** The label in terms of the words: build tools are the first 17, games up to 31, browsers up to 41. */
  lemma LabelByWords(names: seq<Bytes>)
    ensures var w := SoftLabel(MultiHot(names));
            var build := exists i: nat :: i < 17 && Hit(names, i);
            var game := exists i: nat :: 17 <= i < 31 && Hit(names, i);
            var browse := exists i: nat :: 31 <= i < 41 && Hit(names, i);
            && (w == Compiling <==> build)
            && (w == Gaming <==> !build && game)
            && (w == Browsing <==> !build && !game && browse)
            && (w == Idle <==> !build && !game && !browse)
  {
    AnyHit(names, 0, 17);
    AnyHit(names, 17, 31);
    AnyHit(names, 31, 41);
  }

  /** `efficiency` is the governor the kernel offers for light load. */
  function PriorGovernor(w: Workload, efficiency: string): string {
    if w == Compiling || w == Gaming then "performance" else efficiency
  }

  function ResolvePrior(w: Workload, actions: seq<string>, efficiency: string): (g: string)
    ensures actions != [] ==> g in actions
  {
    var want := PriorGovernor(w, efficiency);
    if want in actions then want
    else if actions != [] then actions[0]
    else "powersave"
  }
}
