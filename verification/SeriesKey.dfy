/** The canonical text of a series (series_hash.go): equal for equal attribute sets,
    different for different ones. */
module SeriesKey {

  type Byte = b: int | 0 <= b < 256

  /** An attribute value. A map is its entries in insertion order. */
  datatype Value =
    | Empty
    | Str(s: string)
    | Int(i: int)
    | Double(bits: bv64)
    | Bool(b: bool)
    | Bytes(raw: seq<Byte>)
    | MapValue(entries: seq<Entry>)
    | SliceValue(items: seq<Value>)

  datatype Entry = Entry(key: string, value: Value)

  /** A bit pattern of a float64 that is not a number. */
  predicate IsNaN(bits: bv64) { (bits & 0x7fff_ffff_ffff_ffff) > 0x7ff0_0000_0000_0000 }

  /** The characters that close a value. */
  predicate IsEnd(c: char) { c == ',' || c == '}' || c == ']' || c == '|' }

  predicate FreeOfEnds(s: string) {
    forall k :: 0 <= k < |s| ==> !IsEnd(s[k])
  }

  /** The standard library's shortest spelling of a float64 that is a number. */
  datatype Spelling = Spelling(double: bv64 -> string) {
    /** Different floats are spelled differently, never like NaN, and never with a delimiter. */
    ghost predicate Valid() {
      && (forall x, y :: !IsNaN(x) && !IsNaN(y) && double(x) == double(y) ==> x == y)
      && (forall x :: !IsNaN(x) ==> double(x) != "NaN" && FreeOfEnds(double(x)))
    }
  }

  // ----- spelling numbers and bytes -----

  function Digit(d: nat): char
    requires d < 10
  {
    ('0' as int + d) as char
  }

  function Digits(n: nat): string {
    if n < 10 then [Digit(n)] else Digits(n / 10) + [Digit(n % 10)]
  }

  /** strconv.FormatInt in base 10. */
  function FormatInt(i: int): string {
    if i < 0 then ['-'] + Digits(-i) else Digits(i)
  }

  function HexDigit(d: nat): char
    requires d < 16
  {
    if d < 10 then Digit(d) else ('a' as int + d - 10) as char
  }

  /** hex.EncodeToString. */
  function EncodeToString(raw: seq<Byte>): string {
    if raw == [] then [] else [HexDigit(raw[0] / 16), HexDigit(raw[0] % 16)] + EncodeToString(raw[1..])
  }

  /** strconv.FormatFloat; every bit pattern that is not a number is spelled alike. */
  function FormatFloat(sp: Spelling, bits: bv64): string {
    if IsNaN(bits) then "NaN" else sp.double(bits)
  }

  /** The same number, or both not a number. */
  predicate SameDouble(x: bv64, y: bv64) { x == y || (IsNaN(x) && IsNaN(y)) }

  lemma {:induction false} DigitsAreDigits(n: nat)
    ensures Digits(n) != [] && forall k :: 0 <= k < |Digits(n)| ==> '0' <= Digits(n)[k] <= '9'
  {
    if n >= 10 {
      DigitsAreDigits(n / 10);
    }
  }

  lemma {:induction false} DigitsInjective(m: nat, n: nat)
    requires Digits(m) == Digits(n)
    ensures m == n
  {
    DigitsAreDigits(m / 10);
    DigitsAreDigits(n / 10);
    var s := Digits(m);
    if m >= 10 && n >= 10 {
      assert s[..|s| - 1] == Digits(m / 10) && s[..|s| - 1] == Digits(n / 10);
      assert s[|s| - 1] == Digit(m % 10) && s[|s| - 1] == Digit(n % 10);
      DigitsInjective(m / 10, n / 10);
    }
  }

  lemma FormatIntSign(i: int)
    ensures FormatInt(i) != [] && (FormatInt(i)[0] == '-' <==> i < 0)
    ensures i < 0 ==> FormatInt(i)[1..] == Digits(-i)
  {
    DigitsAreDigits(if i < 0 then -i else i);
    hide Digits;
  }

  lemma FormatIntInjective(i: int, j: int)
    requires FormatInt(i) == FormatInt(j)
    ensures i == j
  {
    hide Digits;
    FormatIntSign(i);
    FormatIntSign(j);
    if i < 0 {
      DigitsInjective(-i, -j);
    } else {
      DigitsInjective(i, j);
    }
  }

  lemma {:induction false} EncodeInjective(a: seq<Byte>, b: seq<Byte>)
    requires EncodeToString(a) == EncodeToString(b)
    ensures a == b
  {
    var s := EncodeToString(a);
    if a != [] && b != [] {
      assert s[0] == HexDigit(a[0] / 16) == HexDigit(b[0] / 16);
      assert s[1] == HexDigit(a[0] % 16) == HexDigit(b[0] % 16);
      assert EncodeToString(a[1..]) == s[2..] && EncodeToString(b[1..]) == s[2..];
      EncodeInjective(a[1..], b[1..]);
      assert a == [a[0]] + a[1..] && b == [b[0]] + b[1..];
    }
  }

  lemma FormatIntIsFree(i: int)
    ensures FreeOfEnds(FormatInt(i))
  {
    DigitsAreDigits(if i < 0 then -i else i);
  }

  lemma {:induction false} EncodeIsFree(raw: seq<Byte>)
    ensures FreeOfEnds(EncodeToString(raw))
  {
    if raw != [] {
      EncodeIsFree(raw[1..]);
    }
  }

  lemma FormatFloatInjective(sp: Spelling, x: bv64, y: bv64)
    requires sp.Valid() && FormatFloat(sp, x) == FormatFloat(sp, y)
    ensures SameDouble(x, y)
  {
    hide IsNaN;
  }

  lemma FormatFloatIsFree(sp: Spelling, x: bv64)
    requires sp.Valid()
    ensures FreeOfEnds(FormatFloat(sp, x))
  {
    hide IsNaN;
  }

  lemma BitsInjective(x: bv64, y: bv64)
    requires x as int == y as int
    ensures x == y
  {
    assert (x as int) as bv64 == x && (y as int) as bv64 == y;
  }

  function SpellBits(x: bv64): string { FormatInt(x as int) }

  lemma SpelledByDigits(i: int)
    ensures FormatInt(i) != "NaN"
  {
    DigitsAreDigits(if i < 0 then -i else i);
    assert FormatInt(i)[0] != 'N';
  }

  lemma SpellBitsIsSpelling(x: bv64, y: bv64)
    ensures SpellBits(x) == SpellBits(y) ==> x == y
    ensures FreeOfEnds(SpellBits(x)) && SpellBits(x) != "NaN"
  {
    var i, j := x as int, y as int;
    FormatIntIsFree(i);
    SpelledByDigits(i);
    if SpellBits(x) == SpellBits(y) {
      FormatIntInjective(i, j);
      BitsInjective(x, y);
    }
    hide FormatInt, FreeOfEnds;
  }

  /** Such a spelling exists: the number of the bit pattern would do. */
  lemma SpellingExists() returns (sp: Spelling)
    ensures sp.Valid()
  {
    hide IsNaN, SpellBits, FreeOfEnds;
    sp := Spelling(SpellBits);
    forall x: bv64, y: bv64
      ensures (sp.double(x) == sp.double(y) ==> x == y) && sp.double(x) != "NaN" && FreeOfEnds(sp.double(x))
    {
      SpellBitsIsSpelling(x, y);
    }
  }

  // ----- sorted keys -----

  predicate LexLe(a: string, b: string) {
    a == [] || (b != [] && (a[0] < b[0] || (a[0] == b[0] && LexLe(a[1..], b[1..]))))
  }

  lemma LexTotal(a: string, b: string)
    ensures LexLe(a, b) || LexLe(b, a)
  {
  }

  lemma {:induction false} LexAntisymmetric(a: string, b: string)
    requires LexLe(a, b) && LexLe(b, a)
    ensures a == b
  {
    if a != [] && b != [] {
      LexAntisymmetric(a[1..], b[1..]);
      assert a == [a[0]] + a[1..] && b == [b[0]] + b[1..];
    }
  }

  lemma LexTransitive(a: string, b: string, c: string)
    requires LexLe(a, b) && LexLe(b, c)
    ensures LexLe(a, c)
  {
  }

  ghost predicate Sorted(keys: seq<string>) {
    forall i, j :: 0 <= i < j < |keys| ==> LexLe(keys[i], keys[j])
  }

  lemma SortedCons(key: string, keys: seq<string>)
    requires Sorted(keys) && (keys != [] ==> LexLe(key, keys[0]))
    ensures Sorted([key] + keys)
  {
    hide LexLe;
    forall j | 0 <= j < |keys| ensures LexLe(key, keys[j]) {
      if j > 0 { LexTransitive(key, keys[0], keys[j]); }
    }
  }

  lemma SortedInsert(key: string, keys: seq<string>, rest: seq<string>)
    requires Sorted(keys) && keys != [] && !LexLe(key, keys[0])
    requires Sorted(rest) && multiset(rest) == multiset(keys[1..]) + multiset{key}
    ensures Sorted([keys[0]] + rest)
  {
    hide LexLe;
    LexTotal(key, keys[0]);
    if rest != [] {
      assert rest[0] in multiset(rest);
      assert rest[0] in keys[1..] || rest[0] == key;
    }
    SortedCons(keys[0], rest);
  }

  function Insert(key: string, keys: seq<string>): (r: seq<string>)
    requires Sorted(keys)
    ensures Sorted(r) && multiset(r) == multiset(keys) + multiset{key}
  {
    if keys == [] then [key]
    else if LexLe(key, keys[0]) then
      SortedCons(key, keys);
      [key] + keys
    else
      assert keys == [keys[0]] + keys[1..];
      var rest := Insert(key, keys[1..]);
      SortedInsert(key, keys, rest);
      [keys[0]] + rest
  }

  function Sort(keys: seq<string>): (r: seq<string>)
    ensures Sorted(r) && multiset(r) == multiset(keys)
  {
    if keys == [] then [] else
      assert keys == [keys[0]] + keys[1..];
      Insert(keys[0], Sort(keys[1..]))
  }

  lemma TailSorted(keys: seq<string>)
    requires Sorted(keys) && keys != []
    ensures Sorted(keys[1..]) && multiset(keys[1..]) == multiset(keys) - multiset{keys[0]}
  {
    hide LexLe;
    assert keys == [keys[0]] + keys[1..];
  }

  lemma {:induction false} LexReflexive(a: string)
    ensures LexLe(a, a)
  {
    if a != [] { LexReflexive(a[1..]); }
  }

  lemma HeadIsLeast(keys: seq<string>, k: string)
    requires Sorted(keys) && k in keys
    ensures LexLe(keys[0], k)
  {
    var i :| 0 <= i < |keys| && keys[i] == k;
    if i == 0 { LexReflexive(k); }
  }

  lemma SameHeadAndTail(ks: seq<string>, ls: seq<string>)
    requires ks != [] && ls != [] && ks[0] == ls[0] && ks[1..] == ls[1..]
    ensures ks == ls && forall k :: k in ks ==> k == ks[0] || k in ks[1..]
  {
    assert ks == [ks[0]] + ks[1..] && ls == [ls[0]] + ls[1..];
  }

  /** There is only one sorted arrangement of a multiset of keys. */
  lemma {:induction false} SortedIsUnique(a: seq<string>, b: seq<string>)
    requires Sorted(a) && Sorted(b) && multiset(a) == multiset(b)
    ensures a == b
  {
    hide LexLe;
    assert |a| == |multiset(a)| == |multiset(b)| == |b|;
    if a != [] {
      assert a[0] in multiset(b) && b[0] in multiset(a);
      HeadIsLeast(a, b[0]);
      HeadIsLeast(b, a[0]);
      LexAntisymmetric(a[0], b[0]);
      TailSorted(a);
      TailSorted(b);
      hide Sorted;
      SortedIsUnique(a[1..], b[1..]);
      SameHeadAndTail(a, b);
    }
  }

  function KeysOf(entries: seq<Entry>): (r: seq<string>)
    ensures |r| == |entries| && forall k :: 0 <= k < |r| ==> r[k] == entries[k].key
  {
    seq(|entries|, k requires 0 <= k < |entries| => entries[k].key)
  }

  /** The keys of a map, filled in insertion order and then sorted. */
  method SortedMapKeys(entries: seq<Entry>) returns (keys: seq<string>)
    ensures keys == Sort(KeysOf(entries))
  {
    keys := [];
    for i := 0 to |entries|
      invariant keys == KeysOf(entries[..i])
    {
      keys := keys + [entries[i].key];
    }
    assert entries[..|entries|] == entries;
    keys := Sort(keys);
  }

  /** Position of the first entry with this key. */
  function Find(entries: seq<Entry>, key: string): (k: nat)
    requires key in KeysOf(entries)
    ensures k < |entries| && entries[k].key == key
  {
    if entries[0].key == key then 0 else
      assert KeysOf(entries)[1..] == KeysOf(entries[1..]);
      1 + Find(entries[1..], key)
  }

  function Get(entries: seq<Entry>, key: string): Value
    requires key in KeysOf(entries)
  {
    entries[Find(entries, key)].value
  }

  lemma SortKeepsKeys(entries: seq<Entry>, key: string)
    ensures key in Sort(KeysOf(entries)) <==> key in KeysOf(entries)
  {
    assert key in multiset(Sort(KeysOf(entries))) <==> key in multiset(KeysOf(entries));
  }

  function SortedKeys(entries: seq<Entry>): (keys: seq<string>)
    ensures forall k :: k in keys ==> k in KeysOf(entries)
  {
    var keys := Sort(KeysOf(entries));
    assert forall k :: k in keys ==> k in KeysOf(entries) by {
      forall k | k in keys ensures k in KeysOf(entries) { SortKeepsKeys(entries, k); }
    }
    keys
  }

  // ----- the printer -----

  function AtomKey(sp: Spelling, v: Value): string
    requires !v.MapValue? && !v.SliceValue?
  {
    match v
    case Empty => "empty"
    case Str(s) => "str:" + s
    case Int(i) => "int:" + FormatInt(i)
    case Double(bits) => "double:" + FormatFloat(sp, bits)
    case Bool(b) => "bool:" + (if b then "true" else "false")
    case Bytes(raw) => "bytes:" + EncodeToString(raw)
  }

  /** The items from index i on, each after the first preceded by a comma. */
  function SliceBody(sp: Spelling, v: Value, i: nat): string
    requires v.SliceValue? && i <= |v.items|
    decreases v, 0, |v.items| - i
  {
    if i == |v.items| then "" else
      (if i == 0 then "" else ",") + ValueKey(sp, v.items[i]) + SliceBody(sp, v, i + 1)
  }

  function ValueKey(sp: Spelling, v: Value): string
    decreases v, 1, 0
  {
    match v
    case MapValue(entries) => "{" + MapBody(sp, v, SortedKeys(entries), true) + "}"
    case SliceValue(items) => "[" + SliceBody(sp, v, 0) + "]"
    case _ => AtomKey(sp, v)
  }

  /** The entries for `keys`, each after the first preceded by a comma. */
  function MapBody(sp: Spelling, v: Value, keys: seq<string>, first: bool): string
    requires v.MapValue? && forall k :: k in keys ==> k in KeysOf(v.entries)
    decreases v, 0, |keys|
  {
    if keys == [] then "" else
      assert v.entries[Find(v.entries, keys[0])] in v.entries;
      (if first then "" else ",") + keys[0] + ":" + ValueKey(sp, Get(v.entries, keys[0]))
      + MapBody(sp, v, keys[1..], false)
  }

  function AttrTag(): string { "|attr=" }

  function MetricTag(): string { "metric=" }

  function AttributesBody(sp: Spelling, attrs: seq<Entry>, keys: seq<string>): string
    requires forall k :: k in keys ==> k in KeysOf(attrs)
  {
    if keys == [] then "" else
      AttrTag() + keys[0] + ":" + ValueKey(sp, Get(attrs, keys[0])) + AttributesBody(sp, attrs, keys[1..])
  }

  function AttributesKey(sp: Spelling, attrs: seq<Entry>): string {
    AttributesBody(sp, attrs, SortedKeys(attrs))
  }

  /** The text IdentityHash hashes. */
  function IdentityKey(sp: Spelling, name: string, attrs: seq<Entry>): string {
    MetricTag() + name + AttributesKey(sp, attrs)
  }

  // ----- writing it into a builder -----

  class Builder {
    var text: string

    constructor ()
      ensures text == ""
    {
      text := "";
    }

    method WriteString(s: string)
      modifies this
      ensures text == old(text) + s
    {
      text := text + s;
    }
  }

  lemma SortedKeysAre(entries: seq<Entry>)
    ensures SortedKeys(entries) == Sort(KeysOf(entries))
  {
  }

  lemma RegroupPair(a: string, b: string, c: string)
    ensures a + (b + c) == a + b + c
  {
  }

  lemma MapKeyText(sp: Spelling, v: Value, start: string)
    requires v.MapValue?
    ensures start + ValueKey(sp, v) == start + "{" + MapBody(sp, v, SortedKeys(v.entries), true) + "}"
  {
    hide MapBody, SortedKeys;
    var body := MapBody(sp, v, SortedKeys(v.entries), true);
    assert ValueKey(sp, v) == "{" + body + "}";
    hide *;
    RegroupPair(start, "{" + body, "}");
    RegroupPair(start, "{", body);
  }

  lemma Regroup(a: string, b: string, c: string, d: string, e: string)
    ensures a + (b + c + d + e) == a + b + c + d + e
    ensures a + b + c + d + e == a + (b + (c + (d + e)))
  {
  }

  /** Writing one entry moves it from the text still due to the text written. */
  lemma MapBodyStep(sp: Spelling, v: Value, keys: seq<string>, first: bool, before: string)
    requires v.MapValue? && keys != [] && forall k :: k in keys ==> k in KeysOf(v.entries)
    ensures var sep := if first then "" else ",";
            before + MapBody(sp, v, keys, first)
            == before + sep + keys[0] + ":" + ValueKey(sp, Get(v.entries, keys[0])) + MapBody(sp, v, keys[1..], false)
  {
    hide ValueKey, Get, KeysOf;
    var sep, vk, tail := if first then "" else ",", ValueKey(sp, Get(v.entries, keys[0])),
      MapBody(sp, v, keys[1..], false);
    assert MapBody(sp, v, keys, first) == sep + keys[0] + ":" + vk + tail;
    hide *;
    Regroup(before, sep + keys[0], ":", vk, tail);
    RegroupPair(before, sep, keys[0]);
  }

  method AppendMapBody(sp: Spelling, b: Builder, v: Value, keys: seq<string>)
    requires v.MapValue? && forall k :: k in keys ==> k in KeysOf(v.entries)
    modifies b
    ensures b.text == old(b.text) + MapBody(sp, v, keys, true)
    decreases v, 0, 1
  {
    assert keys[|keys|..] == [] && MapBody(sp, v, [], false) == "" && MapBody(sp, v, [], true) == "";
    hide ValueKey, MapBody;
    ghost var start := b.text;
    for i := 0 to |keys|
      invariant b.text + MapBody(sp, v, keys[i..], i == 0) == start + MapBody(sp, v, keys, true)
    {
      assert keys[i..][0] == keys[i] && keys[i..][1..] == keys[i + 1..];
      MapBodyStep(sp, v, keys[i..], i == 0, b.text);
      AppendEntry(sp, b, v, keys[i], i);
    }
  }

  method AppendMapKey(sp: Spelling, b: Builder, v: Value)
    requires v.MapValue?
    modifies b
    ensures b.text == old(b.text) + ValueKey(sp, v)
    decreases v, 0, 2
  {
    hide ValueKey, MapBody, SortedKeys, Sort;
    ghost var start := b.text;
    b.WriteString("{");
    var keys := SortedMapKeys(v.entries);
    SortedKeysAre(v.entries);
    AppendMapBody(sp, b, v, keys);
    b.WriteString("}");
    MapKeyText(sp, v, start);
  }

  lemma SliceKeyText(sp: Spelling, v: Value, start: string)
    requires v.SliceValue?
    ensures start + ValueKey(sp, v) == start + "[" + SliceBody(sp, v, 0) + "]"
  {
    hide SliceBody;
    var body := SliceBody(sp, v, 0);
    assert ValueKey(sp, v) == "[" + body + "]";
    hide *;
    RegroupPair(start, "[" + body, "]");
    RegroupPair(start, "[", body);
  }

  lemma SliceBodyStep(sp: Spelling, v: Value, i: nat, before: string)
    requires v.SliceValue? && i < |v.items|
    ensures var sep := if i == 0 then "" else ",";
            before + SliceBody(sp, v, i) == before + sep + ValueKey(sp, v.items[i]) + SliceBody(sp, v, i + 1)
  {
    hide ValueKey;
    var sep, vk, tail := if i == 0 then "" else ",", ValueKey(sp, v.items[i]), SliceBody(sp, v, i + 1);
    assert SliceBody(sp, v, i) == sep + vk + tail;
    hide *;
    RegroupPair(before, sep + vk, tail);
    RegroupPair(before, sep, vk);
  }

  method AppendSliceBody(sp: Spelling, b: Builder, v: Value)
    requires v.SliceValue?
    modifies b
    ensures b.text == old(b.text) + SliceBody(sp, v, 0)
    decreases v, 0, 1
  {
    assert SliceBody(sp, v, |v.items|) == "";
    hide ValueKey, SliceBody;
    ghost var start := b.text;
    for i := 0 to |v.items|
      invariant b.text + SliceBody(sp, v, i) == start + SliceBody(sp, v, 0)
    {
      SliceBodyStep(sp, v, i, b.text);
      assert b.text + "" == b.text;
      if i > 0 {
        b.WriteString(",");
      }
      AppendValueKey(sp, b, v.items[i]);
    }
  }

  method AppendSliceKey(sp: Spelling, b: Builder, v: Value)
    requires v.SliceValue?
    modifies b
    ensures b.text == old(b.text) + ValueKey(sp, v)
    decreases v, 0, 2
  {
    hide ValueKey, SliceBody;
    ghost var start := b.text;
    b.WriteString("[");
    AppendSliceBody(sp, b, v);
    b.WriteString("]");
    SliceKeyText(sp, v, start);
  }

  method AppendValueKey(sp: Spelling, b: Builder, v: Value)
    modifies b
    ensures b.text == old(b.text) + ValueKey(sp, v)
    decreases v, 1, 0
  {
    match v {
      case MapValue(entries) => AppendMapKey(sp, b, v);
      case SliceValue(items) => AppendSliceKey(sp, b, v);
      case _ => b.WriteString(AtomKey(sp, v));
    }
  }

  /** One turn of the loop over a map's sorted keys. */
  method AppendEntry(sp: Spelling, b: Builder, v: Value, key: string, i: nat)
    requires v.MapValue? && key in KeysOf(v.entries)
    modifies b
    ensures b.text == old(b.text) + (if i == 0 then "" else ",") + key + ":" + ValueKey(sp, Get(v.entries, key))
    decreases v, 0, 0
  {
    hide ValueKey;
    assert b.text + "" == b.text;
    if i > 0 {
      b.WriteString(",");
    }
    b.WriteString(key);
    b.WriteString(":");
    assert v.entries[Find(v.entries, key)] in v.entries;
    AppendValueKey(sp, b, Get(v.entries, key));
  }

  lemma RegroupEntry(a: string, b: string, c: string, d: string, e: string, f: string)
    ensures a + b + c + d + e + f == a + (b + c + (d + (e + f)))
  {
    Regroup(a + b, c, d, e, f);
    RegroupPair(a, b, c + (d + (e + f)));
    RegroupPair(b, c, d + (e + f));
  }

  lemma AttributesBodyStep(sp: Spelling, attrs: seq<Entry>, keys: seq<string>, before: string)
    requires keys != [] && forall k :: k in keys ==> k in KeysOf(attrs)
    ensures before + AttributesBody(sp, attrs, keys)
         == before + AttrTag() + keys[0] + ":" + ValueKey(sp, Get(attrs, keys[0]))
            + AttributesBody(sp, attrs, keys[1..])
  {
    hide AttrTag, ValueKey, Get, KeysOf;
    var vk, tail := ValueKey(sp, Get(attrs, keys[0])), AttributesBody(sp, attrs, keys[1..]);
    assert AttributesBody(sp, attrs, keys) == AttrTag() + keys[0] + ":" + vk + tail;
    hide *;
    Regroup(before, AttrTag() + keys[0], ":", vk, tail);
    RegroupPair(before, AttrTag(), keys[0]);
  }

  /** One turn of the loop over the sorted attribute keys. */
  method AppendAttribute(sp: Spelling, b: Builder, attrs: seq<Entry>, key: string)
    requires key in KeysOf(attrs)
    modifies b
    ensures b.text == old(b.text) + AttrTag() + key + ":" + ValueKey(sp, Get(attrs, key))
  {
    hide ValueKey, AttrTag;
    b.WriteString(AttrTag());
    b.WriteString(key);
    b.WriteString(":");
    AppendValueKey(sp, b, Get(attrs, key));
  }

  method AppendAttributesBody(sp: Spelling, b: Builder, attrs: seq<Entry>, keys: seq<string>)
    requires forall k :: k in keys ==> k in KeysOf(attrs)
    modifies b
    ensures b.text == old(b.text) + AttributesBody(sp, attrs, keys)
  {
    assert keys[0..] == keys && keys[|keys|..] == [] && AttributesBody(sp, attrs, []) == "";
    hide ValueKey, AttributesBody, AttrTag;
    ghost var start := b.text;
    for i := 0 to |keys|
      invariant b.text + AttributesBody(sp, attrs, keys[i..]) == start + AttributesBody(sp, attrs, keys)
    {
      assert keys[i..][0] == keys[i] && keys[i..][1..] == keys[i + 1..];
      AttributesBodyStep(sp, attrs, keys[i..], b.text);
      AppendAttribute(sp, b, attrs, keys[i]);
    }
  }

  method AppendAttributesKey(sp: Spelling, b: Builder, attrs: seq<Entry>)
    modifies b
    ensures b.text == old(b.text) + AttributesKey(sp, attrs)
  {
    hide AttributesBody, SortedKeys, Sort;
    var keys := SortedMapKeys(attrs);
    SortedKeysAre(attrs);
    AppendAttributesBody(sp, b, attrs, keys);
  }

  /** The text whose hash identifies a series. */
  method WriteIdentity(sp: Spelling, metricName: string, attrs: seq<Entry>) returns (text: string)
    ensures text == IdentityKey(sp, metricName, attrs)
  {
    hide MetricTag, AttributesKey;
    var b := new Builder();
    assert "" + MetricTag() == MetricTag();
    b.WriteString(MetricTag());
    b.WriteString(metricName);
    AppendAttributesKey(sp, b, attrs);
    text := b.text;
  }

  // ----- equality of values as maps -----

  /** Equal up to the insertion order of maps, at every depth; slices keep their order. */
  ghost predicate SameValue(v: Value, w: Value)
    decreases v, 1
  {
    match (v, w)
    case (MapValue(a), MapValue(b)) =>
      && multiset(KeysOf(a)) == multiset(KeysOf(b))
      && forall key :: key in KeysOf(a) && key in KeysOf(b) ==>
           (assert a[Find(a, key)] in a; SameValue(Get(a, key), Get(b, key)))
    case (SliceValue(xs), SliceValue(ys)) =>
      |xs| == |ys| && forall i :: 0 <= i < |xs| ==> SameValue(xs[i], ys[i])
    case (Double(x), Double(y)) => SameDouble(x, y)
    case _ => v == w
  }

  ghost predicate SameAttributes(a: seq<Entry>, b: seq<Entry>) {
    SameValue(MapValue(a), MapValue(b))
  }

  lemma SameSortedKeys(a: seq<Entry>, b: seq<Entry>)
    requires multiset(KeysOf(a)) == multiset(KeysOf(b))
    ensures SortedKeys(a) == SortedKeys(b)
    ensures forall k :: k in KeysOf(a) <==> k in KeysOf(b)
  {
    SortedIsUnique(Sort(KeysOf(a)), Sort(KeysOf(b)));
    forall k ensures k in KeysOf(a) <==> k in KeysOf(b) {
      assert k in KeysOf(a) <==> k in multiset(KeysOf(a));
      assert k in KeysOf(b) <==> k in multiset(KeysOf(b));
    }
  }

  lemma {:induction false} SameSliceBody(sp: Spelling, v: Value, w: Value, i: nat)
    requires v.SliceValue? && w.SliceValue? && SameValue(v, w) && i <= |v.items|
    ensures SliceBody(sp, v, i) == SliceBody(sp, w, i)
    decreases v, 0, |v.items| - i
  {
    if i < |v.items| {
      SameValueSameKey(sp, v.items[i], w.items[i]);
      SameSliceBody(sp, v, w, i + 1);
    }
  }

  /** Values equal as maps have the same key, whatever their insertion order. */
  lemma {:induction false} SameValueSameKey(sp: Spelling, v: Value, w: Value)
    requires SameValue(v, w)
    ensures ValueKey(sp, v) == ValueKey(sp, w)
    decreases v, 1, 0
  {
    match (v, w)
    case (MapValue(a), MapValue(b)) =>
      SameSortedKeys(a, b);
      SameMapBody(sp, v, w, SortedKeys(a), true);
    case (SliceValue(xs), SliceValue(ys)) =>
      SameSliceBody(sp, v, w, 0);
    case _ =>
  }

  lemma {:induction false} SameMapBody(sp: Spelling, v: Value, w: Value, keys: seq<string>, first: bool)
    requires v.MapValue? && w.MapValue? && SameValue(v, w)
    requires forall k :: k in keys ==> k in KeysOf(v.entries) && k in KeysOf(w.entries)
    ensures MapBody(sp, v, keys, first) == MapBody(sp, w, keys, first)
    decreases v, 0, |keys|
  {
    if keys != [] {
      assert keys[0] in keys;
      assert v.entries[Find(v.entries, keys[0])] in v.entries;
      SameValueSameKey(sp, Get(v.entries, keys[0]), Get(w.entries, keys[0]));
      SameMapBody(sp, v, w, keys[1..], false);
    }
  }

  // ----- the key determines the value -----

  /** Empty, or beginning with a character that closes a value. */
  predicate Closes(r: string) { r == "" || IsEnd(r[0]) }

  /** A key free of the characters that end it: the colon, or the brace of an empty map. */
  predicate CleanKey(key: string) { ':' !in key && '}' !in key }

  /** A name free of the character that begins an attribute. */
  predicate CleanName(name: string) { '|' !in name }

  predicate CleanValue(v: Value) {
    match v
    case Str(s) => FreeOfEnds(s)
    case MapValue(entries) => forall e :: e in entries ==> CleanKey(e.key) && CleanValue(e.value)
    case SliceValue(items) => forall x :: x in items ==> CleanValue(x)
    case _ => true
  }

  lemma StripTag(tag: string, s: string, t: string)
    requires tag + s == tag + t
    ensures s == t
  {
    assert s == (tag + s)[|tag|..] && t == (tag + t)[|tag|..];
  }

  /** Text free of some ending characters is delimited by one of them, or by nothing more. */
  lemma Delimited(ends: char -> bool, s: string, t: string, q: string, r: string)
    requires s + q == t + r && (forall c :: c in s ==> !ends(c)) && (forall c :: c in t ==> !ends(c))
    requires (q == "" || ends(q[0])) && (r == "" || ends(r[0]))
    ensures s == t && q == r
  {
    var x := s + q;
    assert x == t + r;
    assert forall k :: 0 <= k < |s| ==> x[k] == s[k];
    assert forall k :: 0 <= k < |t| ==> x[k] == t[k];
    assert q != "" ==> x[|s|] == q[0];
    assert r != "" ==> x[|t|] == r[0];
    assert |s| == |t|;
    assert s == x[..|s|] && t == x[..|t|] && q == x[|s|..] && r == x[|t|..];
  }

  /** A key is delimited by the colon that follows it. */
  lemma DelimitedKey(s: string, t: string, q: string, r: string)
    requires s + ":" + q == t + ":" + r && ':' !in s && ':' !in t
    ensures s == t && q == r
  {
    assert s + (":" + q) == s + ":" + q && t + (":" + r) == t + ":" + r;
    Delimited(c => c == ':', s, t, ":" + q, ":" + r);
    StripTag(":", q, r);
  }

  lemma AtomIsFree(sp: Spelling, v: Value)
    requires sp.Valid() && !v.MapValue? && !v.SliceValue? && CleanValue(v)
    ensures FreeOfEnds(AtomKey(sp, v)) && AtomKey(sp, v) != "" && AtomKey(sp, v)[0] !in {'{', '['}
  {
    hide FormatInt, EncodeToString, FormatFloat;
    match v
    case Int(i) => FormatIntIsFree(i);
    case Double(bits) => FormatFloatIsFree(sp, bits);
    case Bytes(raw) => EncodeIsFree(raw);
    case _ =>
  }

  lemma AtomInjective(sp: Spelling, v: Value, w: Value)
    requires sp.Valid() && !v.MapValue? && !v.SliceValue? && !w.MapValue? && !w.SliceValue?
    requires AtomKey(sp, v) == AtomKey(sp, w)
    ensures SameValue(v, w)
  {
    hide FormatInt, EncodeToString, FormatFloat, SameDouble;
    var a, b := AtomKey(sp, v), AtomKey(sp, w);
    assert a[0] == b[0] && a[1] == b[1];
    match v
    case Empty =>
    case Str(s) => StripTag("str:", s, w.s);
    case Int(i) =>
      StripTag("int:", FormatInt(i), FormatInt(w.i));
      FormatIntInjective(i, w.i);
    case Double(bits) =>
      StripTag("double:", FormatFloat(sp, bits), FormatFloat(sp, w.bits));
      FormatFloatInjective(sp, bits, w.bits);
    case Bool(x) => StripTag("bool:", if x then "true" else "false", if w.b then "true" else "false");
    case Bytes(raw) =>
      StripTag("bytes:", EncodeToString(raw), EncodeToString(w.raw));
      EncodeInjective(raw, w.raw);
  }

  lemma FirstCharacter(sp: Spelling, v: Value, q: string)
    requires sp.Valid() && CleanValue(v)
    ensures ValueKey(sp, v) != "" && (ValueKey(sp, v) + q)[0] == ValueKey(sp, v)[0]
    ensures v.MapValue? <==> ValueKey(sp, v)[0] == '{'
    ensures v.SliceValue? <==> ValueKey(sp, v)[0] == '['
  {
    if !v.MapValue? && !v.SliceValue? {
      AtomIsFree(sp, v);
    }
  }

  lemma SortedKeysArrange(entries: seq<Entry>)
    ensures multiset(SortedKeys(entries)) == multiset(KeysOf(entries)) && |SortedKeys(entries)| == |entries|
  {
    assert |multiset(SortedKeys(entries))| == |multiset(KeysOf(entries))|;
  }

  lemma MapText(sp: Spelling, v: Value, q: string)
    requires v.MapValue?
    ensures ValueKey(sp, v) + q == "{" + (MapBody(sp, v, SortedKeys(v.entries), true) + ("}" + q))
  {
  }

  /** The body from the first key on, with the value's text split off. */
  lemma MapBodyText(sp: Spelling, v: Value, ks: seq<string>, first: bool, q: string)
    requires v.MapValue? && ks != [] && forall k :: k in ks ==> k in KeysOf(v.entries)
    ensures MapBody(sp, v, ks, first) + ("}" + q)
         == (if first then "" else ",")
            + (ks[0] + ":" + (ValueKey(sp, Get(v.entries, ks[0])) + (MapBody(sp, v, ks[1..], false) + ("}" + q))))
  {
    hide ValueKey, Get, KeysOf;
    var sep, vk, tail := if first then "" else ",", ValueKey(sp, Get(v.entries, ks[0])), MapBody(sp, v, ks[1..], false);
    assert MapBody(sp, v, ks, first) == sep + ks[0] + ":" + vk + tail;
    hide *;
    RegroupEntry(sep, ks[0], ":", vk, tail, "}" + q);
  }

  lemma EntryClean(v: Value, key: string)
    requires v.MapValue? && CleanValue(v) && key in KeysOf(v.entries)
    ensures CleanKey(key) && CleanValue(Get(v.entries, key)) && Get(v.entries, key) < v
  {
    assert v.entries[Find(v.entries, key)] in v.entries;
  }

  lemma EmptyBody(sp: Spelling, v: Value, first: bool)
    requires v.MapValue?
    ensures MapBody(sp, v, [], first) == "" && forall q: string :: "" + q == q
  {
  }

  lemma FirstOfEntry(sep: string, key: string, tail: string)
    requires (sep == "" || sep == ",") && CleanKey(key)
    ensures var text := sep + (key + ":" + tail);
            text != "" && text[0] != '}' && (sep == "," ==> Closes(text))
  {
    var text := sep + (key + ":" + tail);
    assert text[0] == if sep == "," then ',' else if key == "" then ':' else key[0];
  }

  /** What a map body followed by its closing brace begins with. */
  lemma BodyStart(sp: Spelling, v: Value, ks: seq<string>, first: bool, q: string)
    requires v.MapValue? && CleanValue(v) && forall k :: k in ks ==> k in KeysOf(v.entries)
    ensures var text := MapBody(sp, v, ks, first) + ("}" + q);
            && text != "" && (text[0] == '}' <==> ks == [])
            && (!first ==> Closes(text))
  {
    if ks == [] {
      EmptyBody(sp, v, first);
    } else {
      EntryClean(v, ks[0]);
      MapBodyText(sp, v, ks, first, q);
      hide MapBody, ValueKey, CleanValue, Get, KeysOf;
      FirstOfEntry(if first then "" else ",", ks[0],
                   ValueKey(sp, Get(v.entries, ks[0])) + (MapBody(sp, v, ks[1..], false) + ("}" + q)));
    }
  }

  lemma {:induction false} MapBodiesDetermined(sp: Spelling, v: Value, w: Value, ks: seq<string>, ls: seq<string>,
                                               first: bool, q: string, r: string)
    requires sp.Valid() && CleanValue(v) && CleanValue(w) && v.MapValue? && w.MapValue?
    requires forall k :: k in ks ==> k in KeysOf(v.entries)
    requires forall k :: k in ls ==> k in KeysOf(w.entries)
    requires MapBody(sp, v, ks, first) + ("}" + q) == MapBody(sp, w, ls, first) + ("}" + r)
    ensures ks == ls && q == r
    ensures forall key :: key in ks && key in ls ==> SameValue(Get(v.entries, key), Get(w.entries, key))
    decreases v, 0, |ks|
  {
    BodyStart(sp, v, ks, first, q);
    BodyStart(sp, w, ls, first, r);
    assert ks == [] <==> ls == [];
    if ks == [] {
      EmptyBody(sp, v, first);
      EmptyBody(sp, w, first);
      hide *;
      StripTag("}", q, r);
    } else {
      EntriesDetermined(sp, v, w, ks, ls, first, q, r);
      MapBodiesDetermined(sp, v, w, ks[1..], ls[1..], false, q, r);
      hide MapBody, ValueKey, CleanValue, SameValue, Get, KeysOf;
      SameHeadAndTail(ks, ls);
    }
  }

  lemma SameKeysSameMap(a: seq<Entry>, b: seq<Entry>)
    requires SortedKeys(a) == SortedKeys(b)
    requires forall key :: key in SortedKeys(a) && key in SortedKeys(b) ==> SameValue(Get(a, key), Get(b, key))
    ensures SameAttributes(a, b)
  {
    SortedKeysArrange(a);
    SortedKeysArrange(b);
    hide SortedKeys, KeysOf, Get;
    forall key | key in KeysOf(a) && key in KeysOf(b) ensures SameValue(Get(a, key), Get(b, key)) {
      assert key in multiset(KeysOf(a));
      assert key in multiset(SortedKeys(a)) && key in multiset(SortedKeys(b));
    }
  }

  lemma {:induction false} MapsDetermined(sp: Spelling, v: Value, w: Value, q: string, r: string)
    requires sp.Valid() && CleanValue(v) && CleanValue(w) && v.MapValue? && w.MapValue?
    requires ValueKey(sp, v) + q == ValueKey(sp, w) + r
    ensures SameValue(v, w) && q == r
    decreases v, 0, |v.entries| + 1
  {
    var ks, ls := SortedKeys(v.entries), SortedKeys(w.entries);
    SortedKeysArrange(v.entries);
    SortedKeysArrange(w.entries);
    MapText(sp, v, q);
    MapText(sp, w, r);
    StripTag("{", MapBody(sp, v, ks, true) + ("}" + q), MapBody(sp, w, ls, true) + ("}" + r));
    hide ValueKey, MapBody, SortedKeys, CleanValue, FreeOfEnds, KeysOf, Get, SameValue;
    MapBodiesDetermined(sp, v, w, ks, ls, true, q, r);
    SameKeysSameMap(v.entries, w.entries);
    assert v == MapValue(v.entries) && w == MapValue(w.entries);
  }

  lemma EmptyRest(sp: Spelling, v: Value, q: string)
    requires v.SliceValue?
    ensures SliceBody(sp, v, |v.items|) + ("]" + q) == "]" + q
  {
  }

  lemma BothEnd(sp: Spelling, v: Value, w: Value, q: string, r: string)
    requires v.SliceValue? && w.SliceValue?
    requires SliceBody(sp, v, |v.items|) + ("]" + q) == SliceBody(sp, w, |w.items|) + ("]" + r)
    ensures q == r
  {
    EmptyRest(sp, v, q);
    EmptyRest(sp, w, r);
    hide *;
    StripTag("]", q, r);
  }

  /** The body from item i on, with the item's text split off. */
  lemma SliceBodyText(sp: Spelling, v: Value, i: nat, q: string)
    requires v.SliceValue? && i < |v.items|
    ensures SliceBody(sp, v, i) + ("]" + q)
         == (if i == 0 then "" else ",") + (ValueKey(sp, v.items[i]) + (SliceBody(sp, v, i + 1) + ("]" + q)))
  {
    hide ValueKey;
    var sep, vk, tail := if i == 0 then "" else ",", ValueKey(sp, v.items[i]), SliceBody(sp, v, i + 1);
    assert SliceBody(sp, v, i) == sep + vk + tail;
    hide *;
    RegroupPair(sep + vk, tail, "]" + q);
    RegroupPair(sep, vk, tail + ("]" + q));
  }

  lemma FirstOfItem(sep: string, item: string, tail: string)
    requires (sep == "" || sep == ",") && item != "" && !IsEnd(item[0])
    ensures var text := sep + (item + tail);
            text != "" && text[0] != ']' && (sep == "," ==> Closes(text))
  {
    assert (sep + (item + tail))[0] == if sep == "," then ',' else item[0];
  }

  lemma StartsFree(sp: Spelling, v: Value)
    requires sp.Valid() && CleanValue(v)
    ensures ValueKey(sp, v) != "" && !IsEnd(ValueKey(sp, v)[0])
  {
    FirstCharacter(sp, v, "");
    if !v.MapValue? && !v.SliceValue? {
      AtomIsFree(sp, v);
    } else {
      hide ValueKey;
    }
  }

  /** What the rest of a slice followed by its closing bracket begins with. */
  lemma SliceStart(sp: Spelling, v: Value, i: nat, q: string)
    requires sp.Valid() && v.SliceValue? && CleanValue(v) && i <= |v.items|
    ensures var text := SliceBody(sp, v, i) + ("]" + q);
            && text != "" && (text[0] == ']' <==> i == |v.items|)
            && (i > 0 ==> Closes(text))
  {
    if i == |v.items| {
      EmptyRest(sp, v, q);
      hide SliceBody;
    } else {
      assert v.items[i] in v.items;
      StartsFree(sp, v.items[i]);
      SliceBodyText(sp, v, i, q);
      hide SliceBody, ValueKey, CleanValue;
      FirstOfItem(if i == 0 then "" else ",", ValueKey(sp, v.items[i]), SliceBody(sp, v, i + 1) + ("]" + q));
    }
  }

  lemma SlicesEndTogether(sp: Spelling, v: Value, w: Value, i: nat, q: string, r: string)
    requires sp.Valid() && CleanValue(v) && CleanValue(w) && v.SliceValue? && w.SliceValue?
    requires i <= |v.items| && i <= |w.items|
    requires SliceBody(sp, v, i) + ("]" + q) == SliceBody(sp, w, i) + ("]" + r)
    ensures i == |v.items| <==> i == |w.items|
  {
    SliceStart(sp, v, i, q);
    SliceStart(sp, w, i, r);
    hide *;
  }

  lemma {:induction false} ItemsDetermined(sp: Spelling, v: Value, w: Value, i: nat, q: string, r: string)
    requires sp.Valid() && CleanValue(v) && CleanValue(w) && v.SliceValue? && w.SliceValue?
    requires i < |v.items| && i < |w.items|
    requires SliceBody(sp, v, i) + ("]" + q) == SliceBody(sp, w, i) + ("]" + r)
    ensures SameValue(v.items[i], w.items[i])
    ensures SliceBody(sp, v, i + 1) + ("]" + q) == SliceBody(sp, w, i + 1) + ("]" + r)
    decreases v, 0, |v.items| - i, 0
  {
    var x, y := v.items[i], w.items[i];
    assert x in v.items && y in w.items;
    hide ValueKey, SliceBody, Closes, FreeOfEnds, SameValue;
    SliceBodyText(sp, v, i, q);
    SliceBodyText(sp, w, i, r);
    SliceStart(sp, v, i + 1, q);
    SliceStart(sp, w, i + 1, r);
    var rest, rest' := SliceBody(sp, v, i + 1) + ("]" + q), SliceBody(sp, w, i + 1) + ("]" + r);
    StripTag(if i == 0 then "" else ",", ValueKey(sp, x) + rest, ValueKey(sp, y) + rest');
    KeyDeterminesValue(sp, x, y, rest, rest');
  }

  lemma {:induction false} SliceBodiesDetermined(sp: Spelling, v: Value, w: Value, i: nat, q: string, r: string)
    requires sp.Valid() && CleanValue(v) && CleanValue(w) && v.SliceValue? && w.SliceValue?
    requires i <= |v.items| && i <= |w.items|
    requires SliceBody(sp, v, i) + ("]" + q) == SliceBody(sp, w, i) + ("]" + r)
    ensures |v.items| == |w.items| && q == r
    ensures forall k :: i <= k < |v.items| ==> SameValue(v.items[k], w.items[k])
    decreases v, 0, |v.items| - i
  {
    hide ValueKey, SliceBody, CleanValue, Closes, FreeOfEnds, SameValue;
    SlicesEndTogether(sp, v, w, i, q, r);
    if i == |v.items| {
      BothEnd(sp, v, w, q, r);
    } else {
      ItemsDetermined(sp, v, w, i, q, r);
      SliceBodiesDetermined(sp, v, w, i + 1, q, r);
    }
  }

  lemma {:induction false} SlicesDetermined(sp: Spelling, v: Value, w: Value, q: string, r: string)
    requires sp.Valid() && CleanValue(v) && CleanValue(w) && v.SliceValue? && w.SliceValue?
    requires ValueKey(sp, v) + q == ValueKey(sp, w) + r
    ensures SameValue(v, w) && q == r
    decreases v, 0, |v.items| + 1
  {
    var body, body' := SliceBody(sp, v, 0), SliceBody(sp, w, 0);
    StripTag("[", body + ("]" + q), body' + ("]" + r)) by {
      assert "[" + (body + ("]" + q)) == ValueKey(sp, v) + q;
      assert "[" + (body' + ("]" + r)) == ValueKey(sp, w) + r;
    }
    SliceBodiesDetermined(sp, v, w, 0, q, r);
  }

  /** Reading from the left: two clean values followed by closing text can only print the
      same text if they are the same value followed by the same text. */
  lemma {:induction false} KeyDeterminesValue(sp: Spelling, v: Value, w: Value, q: string, r: string)
    requires sp.Valid() && CleanValue(v) && CleanValue(w) && Closes(q) && Closes(r)
    requires ValueKey(sp, v) + q == ValueKey(sp, w) + r
    ensures SameValue(v, w) && q == r
    decreases v, 1, 0
  {
    if v.MapValue? && w.MapValue? {
      MapsDetermined(sp, v, w, q, r);
    } else if v.SliceValue? && w.SliceValue? {
      SlicesDetermined(sp, v, w, q, r);
    } else if !v.MapValue? && !v.SliceValue? && !w.MapValue? && !w.SliceValue? {
      AtomIsFree(sp, v);
      AtomIsFree(sp, w);
      Delimited(IsEnd, AtomKey(sp, v), AtomKey(sp, w), q, r);
      AtomInjective(sp, v, w);
    } else {
      FirstCharacter(sp, v, q);
      FirstCharacter(sp, w, r);
      assert false;
    }
  }

  lemma {:induction false} EntriesDetermined(sp: Spelling, v: Value, w: Value, ks: seq<string>, ls: seq<string>,
                                             first: bool, q: string, r: string)
    requires sp.Valid() && CleanValue(v) && CleanValue(w) && v.MapValue? && w.MapValue? && ks != [] && ls != []
    requires forall k :: k in ks ==> k in KeysOf(v.entries)
    requires forall k :: k in ls ==> k in KeysOf(w.entries)
    requires MapBody(sp, v, ks, first) + ("}" + q) == MapBody(sp, w, ls, first) + ("}" + r)
    ensures ks[0] == ls[0] && SameValue(Get(v.entries, ks[0]), Get(w.entries, ls[0]))
    ensures MapBody(sp, v, ks[1..], false) + ("}" + q) == MapBody(sp, w, ls[1..], false) + ("}" + r)
    decreases v, 0, |ks|, 0
  {
    hide ValueKey, MapBody, CleanValue, Closes, FreeOfEnds, Get, KeysOf, SameValue;
    var k, l := ks[0], ls[0];
    EntryClean(v, k);
    EntryClean(w, l);
    MapBodyText(sp, v, ks, first, q);
    MapBodyText(sp, w, ls, first, r);
    BodyStart(sp, v, ks[1..], false, q);
    BodyStart(sp, w, ls[1..], false, r);
    var x, y := Get(v.entries, k), Get(w.entries, l);
    var rest, rest' := MapBody(sp, v, ks[1..], false) + ("}" + q), MapBody(sp, w, ls[1..], false) + ("}" + r);
    StripTag(if first then "" else ",", k + ":" + (ValueKey(sp, x) + rest), l + ":" + (ValueKey(sp, y) + rest'));
    DelimitedKey(k, l, ValueKey(sp, x) + rest, ValueKey(sp, y) + rest');
    KeyDeterminesValue(sp, x, y, rest, rest');
  }

  /** For clean values, the key is the same exactly when the values are. */
  lemma KeyIsCanonical(sp: Spelling, v: Value, w: Value)
    requires sp.Valid() && CleanValue(v) && CleanValue(w)
    ensures ValueKey(sp, v) == ValueKey(sp, w) <==> SameValue(v, w)
  {
    if SameValue(v, w) {
      SameValueSameKey(sp, v, w);
    }
    if ValueKey(sp, v) == ValueKey(sp, w) {
      KeyDeterminesValue(sp, v, w, "", "");
    }
  }

  /** With a delimiter inside a string the key is ambiguous: one item "a,str:b" prints
      like the two items "a" and "b". */
  lemma DelimitersCollide(sp: Spelling)
    ensures var one, two := SliceValue([Str("a,str:b")]), SliceValue([Str("a"), Str("b")]);
            ValueKey(sp, one) == ValueKey(sp, two) && !SameValue(one, two)
  {
    var one, two := SliceValue([Str("a,str:b")]), SliceValue([Str("a"), Str("b")]);
    assert SliceBody(sp, one, 1) == "" && SliceBody(sp, two, 2) == "";
    assert ValueKey(sp, one) == "[str:a,str:b]";
    assert SliceBody(sp, two, 1) == ",str:b";
    assert ValueKey(sp, two) == "[str:a,str:b]";
  }

  // ----- the identity text of a series -----

  predicate CleanAttributes(attrs: seq<Entry>) { CleanValue(MapValue(attrs)) }

  lemma {:induction false} SameAttributesBody(sp: Spelling, a: seq<Entry>, b: seq<Entry>, keys: seq<string>)
    requires SameAttributes(a, b) && forall k :: k in keys ==> k in KeysOf(a) && k in KeysOf(b)
    ensures AttributesBody(sp, a, keys) == AttributesBody(sp, b, keys)
  {
    if keys != [] {
      assert keys[0] in keys;
      SameValueSameKey(sp, Get(a, keys[0]), Get(b, keys[0]));
      SameAttributesBody(sp, a, b, keys[1..]);
    }
  }

  lemma AttributesStart(sp: Spelling, attrs: seq<Entry>, ks: seq<string>)
    requires forall k :: k in ks ==> k in KeysOf(attrs)
    ensures AttributesBody(sp, attrs, ks) == "" || AttributesBody(sp, attrs, ks)[0] == '|'
    ensures Closes(AttributesBody(sp, attrs, ks)) && (AttributesBody(sp, attrs, ks) == "" <==> ks == [])
  {
  }

  lemma AttributesBodyText(sp: Spelling, attrs: seq<Entry>, ks: seq<string>)
    requires ks != [] && forall k :: k in ks ==> k in KeysOf(attrs)
    ensures AttributesBody(sp, attrs, ks)
         == AttrTag() + (ks[0] + ":" + (ValueKey(sp, Get(attrs, ks[0])) + AttributesBody(sp, attrs, ks[1..])))
  {
    hide AttrTag, ValueKey, Get, KeysOf;
    var vk, tail := ValueKey(sp, Get(attrs, ks[0])), AttributesBody(sp, attrs, ks[1..]);
    assert AttributesBody(sp, attrs, ks) == AttrTag() + ks[0] + ":" + vk + tail;
    hide *;
    var tag := AttrTag();
    Regroup(tag, ks[0], ":", vk, tail);
  }

  lemma AttributeDetermined(sp: Spelling, a: seq<Entry>, b: seq<Entry>, ks: seq<string>, ls: seq<string>)
    requires sp.Valid() && CleanAttributes(a) && CleanAttributes(b) && ks != [] && ls != []
    requires forall k :: k in ks ==> k in KeysOf(a)
    requires forall k :: k in ls ==> k in KeysOf(b)
    requires AttributesBody(sp, a, ks) == AttributesBody(sp, b, ls)
    ensures ks[0] == ls[0] && SameValue(Get(a, ks[0]), Get(b, ls[0]))
    ensures AttributesBody(sp, a, ks[1..]) == AttributesBody(sp, b, ls[1..])
  {
    var k, l := ks[0], ls[0];
    hide ValueKey, AttributesBody, CleanValue, Closes, FreeOfEnds, Get, KeysOf, SameValue, AttrTag;
    EntryClean(MapValue(a), k);
    EntryClean(MapValue(b), l);
    AttributesBodyText(sp, a, ks);
    AttributesBodyText(sp, b, ls);
    AttributesStart(sp, a, ks[1..]);
    AttributesStart(sp, b, ls[1..]);
    var x, y := Get(a, k), Get(b, l);
    var rest, rest' := AttributesBody(sp, a, ks[1..]), AttributesBody(sp, b, ls[1..]);
    StripTag(AttrTag(), k + ":" + (ValueKey(sp, x) + rest), l + ":" + (ValueKey(sp, y) + rest'));
    DelimitedKey(k, l, ValueKey(sp, x) + rest, ValueKey(sp, y) + rest');
    KeyDeterminesValue(sp, x, y, rest, rest');
  }

  lemma {:induction false} AttributesDetermined(sp: Spelling, a: seq<Entry>, b: seq<Entry>, ks: seq<string>,
                                                ls: seq<string>)
    requires sp.Valid() && CleanAttributes(a) && CleanAttributes(b)
    requires forall k :: k in ks ==> k in KeysOf(a)
    requires forall k :: k in ls ==> k in KeysOf(b)
    requires AttributesBody(sp, a, ks) == AttributesBody(sp, b, ls)
    ensures ks == ls
    ensures forall key :: key in ks && key in ls ==> SameValue(Get(a, key), Get(b, key))
  {
    AttributesStart(sp, a, ks);
    AttributesStart(sp, b, ls);
    if ks != [] {
      AttributeDetermined(sp, a, b, ks, ls);
      AttributesDetermined(sp, a, b, ks[1..], ls[1..]);
      hide AttributesBody, ValueKey, CleanAttributes, SameValue, Get, KeysOf;
      SameHeadAndTail(ks, ls);
    }
  }

  lemma IdentityText(sp: Spelling, name: string, a: seq<Entry>)
    ensures IdentityKey(sp, name, a) == MetricTag() + (name + AttributesKey(sp, a))
  {
  }

  lemma SameAttributesSameKey(sp: Spelling, a: seq<Entry>, b: seq<Entry>)
    requires SameAttributes(a, b)
    ensures AttributesKey(sp, a) == AttributesKey(sp, b)
  {
    SameSortedKeys(a, b);
    SameAttributesBody(sp, a, b, SortedKeys(a));
  }

  lemma AttributesKeyDeterminesMap(sp: Spelling, a: seq<Entry>, b: seq<Entry>, name: string, name': string)
    requires sp.Valid() && CleanAttributes(a) && CleanAttributes(b) && CleanName(name) && CleanName(name')
    requires name + AttributesKey(sp, a) == name' + AttributesKey(sp, b)
    ensures name == name' && SameAttributes(a, b)
  {
    var ks, ls := SortedKeys(a), SortedKeys(b);
    AttributesStart(sp, a, ks);
    AttributesStart(sp, b, ls);
    hide AttributesBody, SortedKeys, CleanAttributes, Closes, KeysOf, Get, SameAttributes;
    Delimited(c => c == '|', name, name', AttributesKey(sp, a), AttributesKey(sp, b));
    AttributesDetermined(sp, a, b, ks, ls);
    SameKeysSameMap(a, b);
  }

  /** Two series have the same identity text exactly when their names agree and their
      attributes agree as maps. */
  lemma IdentityIsCanonical(sp: Spelling, name: string, a: seq<Entry>, name': string, b: seq<Entry>)
    requires sp.Valid() && CleanName(name) && CleanName(name') && CleanAttributes(a) && CleanAttributes(b)
    ensures IdentityKey(sp, name, a) == IdentityKey(sp, name', b) <==> name == name' && SameAttributes(a, b)
  {
    if name == name' && SameAttributes(a, b) {
      SameAttributesSameKey(sp, a, b);
    }
    if IdentityKey(sp, name, a) == IdentityKey(sp, name', b) {
      IdentityText(sp, name, a);
      IdentityText(sp, name', b);
      hide *;
      StripTag(MetricTag(), name + AttributesKey(sp, a), name' + AttributesKey(sp, b));
      AttributesKeyDeterminesMap(sp, a, b, name, name');
    }
  }
}
