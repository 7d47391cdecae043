/** The file form of the store: bucket keys in decimal, and the loops that write and read it. */
module Persistence {
  import opened Numbers
  import opened Wrappers
  import opened Episodes

  datatype MemoryFile = MemoryFile(tick: u64, buckets: map<string, Bucket>)

  // ---------------------------------------------------------------- decimal keys

  function Digit(d: nat): char
    requires d < 10
  {
    '0' + d as char
  }

  function Print(n: nat): (s: string)
    ensures s != []
  {
    if n < 10 then [Digit(n)] else Print(n / 10) + [Digit(n % 10)]
  }

  function DigitValue(c: char): Option<nat> {
    if '0' <= c <= '9' then Some(c as int - '0' as int) else None
  }

  function DigitsValue(s: string): Option<nat> {
    if s == [] then Some(0)
    else
      var n := |s| - 1;
      var front, d := DigitsValue(s[..n]), DigitValue(s[n]);
      if front.None? || d.None? then None else Some(10 * front.value + d.value)
  }

  /** `str::parse::<u64>`: an optional plus sign, then digits, with the value in range. */
  function Parse(s: string): Option<u64> {
    if s == [] then None
    else
      var digits := if s[0] == '+' then s[1..] else s;
      var v := DigitsValue(digits);
      if digits == [] || v.None? || v.value > U64_MAX then None else Some(v.value)
  }

  lemma DigitsAppend(s: string, v: nat, d: nat)
    requires DigitsValue(s) == Some(v) && d < 10
    ensures DigitsValue(s + [Digit(d)]) == Some(10 * v + d)
  {
    assert (s + [Digit(d)])[..|s|] == s;
  }

  lemma {:induction false} DigitsOfPrint(n: nat)
    ensures Print(n)[0] != '+' && DigitsValue(Print(n)) == Some(n)
  {
    if n < 10 {
      DigitsAppend([], 0, n);
      assert Print(n) == [] + [Digit(n)];
    } else {
      DigitsOfPrint(n / 10);
      DigitsAppend(Print(n / 10), n / 10, n % 10);
    }
  }

  /** A printed key parses back to itself, without overflow. */
  lemma ParsePrint(k: u64)
    ensures Parse(Print(k)) == Some(k)
  {
    DigitsOfPrint(k);
  }

  lemma {:induction false} PrintDigits(n: nat)
    ensures forall i :: 0 <= i < |Print(n)| ==> '0' <= Print(n)[i] <= '9'
  {
    if n < 10 {
    } else {
      PrintDigits(n / 10);
    }
  }

  function Zeros(z: nat): string {
    seq(z, _ => '0')
  }

  lemma {:induction false} ZerosAreZero(z: nat)
    ensures DigitsValue(Zeros(z)) == Some(0)
  {
    if z == 0 {
    } else {
      ZerosAreZero(z - 1);
      DigitsAppend(Zeros(z - 1), 0, 0);
      assert Zeros(z) == Zeros(z - 1) + [Digit(0)];
    }
  }

  lemma {:induction false} ZerosCountNothing(z: nat, n: nat)
    ensures DigitsValue(Zeros(z) + Print(n)) == Some(n)
  {
    if n < 10 {
      ZerosAreZero(z);
      DigitsAppend(Zeros(z), 0, n);
    } else {
      var front := Zeros(z) + Print(n / 10);
      ZerosCountNothing(z, n / 10);
      DigitsAppend(front, n / 10, n % 10);
      assert Zeros(z) + Print(n) == front + [Digit(n % 10)];
    }
  }

  /** A string of digits is a printed number after some zeros. */
  lemma {:induction false} DigitsArePrinted(s: string) returns (z: nat)
    requires s != [] && DigitsValue(s).Some?
    ensures s == Zeros(z) + Print(DigitsValue(s).value)
  {
    var n := |s| - 1;
    assert s == s[..n] + [s[n]];
    if n == 0 {
      z := 0;
      assert DigitsValue(s[..0]) == Some(0);
    } else {
      z := DigitsArePrinted(s[..n]);
      if DigitsValue(s[..n]).value == 0 {
        z := z + 1;
        assert Zeros(z) == s[..n];
      }
    }
  }

  /** The names that parse to a key are its decimal form, possibly after zeros, possibly after one plus sign. */
  lemma ParseMeans(s: string, k: u64)
    ensures Parse(s) == Some(k) <==>
            exists z: nat :: s == Zeros(z) + Print(k) || s == "+" + (Zeros(z) + Print(k))
  {
    if Parse(s) == Some(k) {
      var digits := if s[0] == '+' then s[1..] else s;
      var z := DigitsArePrinted(digits);
      assert s == digits || s == "+" + digits;
    }
    if z: nat :| s == Zeros(z) + Print(k) || s == "+" + (Zeros(z) + Print(k)) {
      var digits := Zeros(z) + Print(k);
      ZerosCountNothing(z, k);
      PrintDigits(k);
      assert s[1..] == digits || s == digits;
    }
  }

  // ---------------------------------------------------------------- encoding

  function Encode(s: Store): MemoryFile {
    MemoryFile(s.tick,
               map name | name in (set k | k in s.buckets :: Print(k)) && Parse(name).Some?
                          && Parse(name).value in s.buckets
                 :: s.buckets[Parse(name).value])
  }

  ghost predicate Written(names: map<string, Bucket>, k: u64, b: Bucket) {
    exists name :: name in names && Parse(name) == Some(k) && names[name] == b
  }

  /** `s` is a result of reading `f`; keys that parse alike may win in any order. */
  ghost predicate Decodes(f: MemoryFile, s: Store) {
    && s.tick == f.tick
    && (forall name :: name in f.buckets ==> Parse(name).Some? && Parse(name).value in s.buckets)
    && (forall k :: k in s.buckets ==> Written(f.buckets, k, s.buckets[k]))
  }

  lemma EncodedNames(s: Store)
    ensures forall k :: k in s.buckets ==>
              Print(k) in Encode(s).buckets && Encode(s).buckets[Print(k)] == s.buckets[k]
    ensures forall name :: name in Encode(s).buckets ==>
              Parse(name).Some? && Parse(name).value in s.buckets && name == Print(Parse(name).value)
  {
    forall k | k in s.buckets
      ensures Print(k) in Encode(s).buckets && Encode(s).buckets[Print(k)] == s.buckets[k]
    {
      ParsePrint(k);
    }
    forall name | name in Encode(s).buckets
      ensures name == Print(Parse(name).value)
    {
      var k :| k in s.buckets && name == Print(k);
      ParsePrint(k);
    }
  }

  lemma EncodedDecodes(s: Store)
    ensures Decodes(Encode(s), s)
  {
    EncodedNames(s);
    forall k | k in s.buckets
      ensures Written(Encode(s).buckets, k, s.buckets[k])
    {
      ParsePrint(k);
      assert Print(k) in Encode(s).buckets;
    }
  }

  lemma DecodesOneWay(s: Store, t: Store)
    requires Decodes(Encode(s), t)
    ensures t == s
  {
    EncodedNames(s);
    var names := Encode(s).buckets;
    forall k | k in s.buckets
      ensures k in t.buckets
    {
      ParsePrint(k);
      assert Print(k) in names;
    }
    forall k | k in t.buckets
      ensures k in s.buckets && t.buckets[k] == s.buckets[k]
    {
      var name :| name in names && Parse(name) == Some(k) && names[name] == t.buckets[k];
    }
    assert t.buckets == s.buckets;
  }

  /** Reading back a saved store gives exactly that store, and can give no other. */
  lemma SaveOpenRoundTrip(s: Store, t: Store)
    ensures Decodes(Encode(s), t) <==> t == s
  {
    EncodedDecodes(s);
    if Decodes(Encode(s), t) {
      DecodesOneWay(s, t);
    }
  }

  /** Saving and reopening between any two operations changes no later state. */
  lemma ReopeningIsTransparent(cap: nat, s: Store, before: seq<Op>, t: Store, after: seq<Op>)
    requires LegalAll(cap, s, before) && Decodes(Encode(ApplyAll(s, before)), t)
    ensures ApplyAll(t, after) == ApplyAll(s, before + after)
    ensures LegalAll(cap, t, after) <==> LegalAll(cap, s, before + after)
  {
    SaveOpenRoundTrip(ApplyAll(s, before), t);
    ApplyAllConcat(s, before, after);
    LegalAllConcat(cap, s, before, after);
  }

  /** Different keys have different names. */
  lemma PrintInjective(k: u64)
    ensures forall j: u64 :: Print(j) == Print(k) ==> j == k
  {
    forall j: u64 | Print(j) == Print(k)
      ensures j == k
    {
      ParsePrint(j);
      ParsePrint(k);
    }
  }

  /** The loop of `save`: visits the buckets in any order. */
  method WriteNames(tick: u64, buckets: Buckets) returns (f: MemoryFile)
    ensures f == Encode(Store(tick, buckets))
  {
    var names: map<string, Bucket> := map[];
    var rest := buckets.Keys;
    while rest != {}
      invariant rest <= buckets.Keys
      invariant forall k :: k in buckets.Keys - rest ==> Print(k) in names && names[Print(k)] == buckets[k]
      invariant forall name :: name in names ==>
                  Parse(name).Some? && Parse(name).value in buckets.Keys - rest && name == Print(Parse(name).value)
      decreases |rest|
    {
      var k :| k in rest;
      ParsePrint(k);
      PrintInjective(k);
      names := names[Print(k) := buckets[k]];
      rest := rest - {k};
    }
    f := MemoryFile(tick, names);
    EncodedNames(Store(tick, buckets));
    assert f.buckets == Encode(Store(tick, buckets)).buckets;
  }

  /** The loop of `open`: fails on a malformed key, else visits the names in any order. */
  method ReadNames(f: MemoryFile) returns (r: Option<Buckets>)
    ensures r.None? <==> exists name :: name in f.buckets && Parse(name).None?
    ensures r.Some? ==> Decodes(f, Store(f.tick, r.value))
  {
    var buckets: Buckets := map[];
    var rest := f.buckets.Keys;
    while rest != {}
      invariant rest <= f.buckets.Keys
      invariant forall name :: name in f.buckets.Keys - rest ==>
                  Parse(name).Some? && Parse(name).value in buckets
      invariant forall k :: k in buckets ==> Written(f.buckets, k, buckets[k])
      decreases |rest|
    {
      var name :| name in rest;
      var key := Parse(name);
      if key.None? {
        return None;
      }
      buckets := buckets[key.value := f.buckets[name]];
      rest := rest - {name};
    }
    r := Some(buckets);
  }
}
