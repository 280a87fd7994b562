/** The identity text of series, spelled out (series_hash.go). */
module KeyText {
  import opened SeriesKey

  // ----- integers and bytes read back -----

  /** The number a string of decimal digits stands for. */
  function ReadDigits(s: string): int {
    if s == "" then 0 else 10 * ReadDigits(s[..|s| - 1]) + (s[|s| - 1] as int - '0' as int)
  }

  function ReadInt(s: string): int {
    if s != "" && s[0] == '-' then -ReadDigits(s[1..]) else ReadDigits(s)
  }

  lemma {:induction false} DigitsRead(n: nat)
    ensures ReadDigits(Digits(n)) == n
  {
    if n >= 10 {
      DigitsRead(n / 10);
      assert Digits(n)[..|Digits(n)| - 1] == Digits(n / 10);
    } else {
      assert Digits(n)[..0] == "";
    }
  }

  /** Every integer is spelled in decimal. */
  lemma FormatIntReads(i: int)
    ensures ReadInt(FormatInt(i)) == i
  {
    FormatIntSign(i);
    DigitsRead(if i < 0 then -i else i);
  }

  function HexValue(c: char): int {
    if '0' <= c <= '9' then c as int - '0' as int else c as int - 'a' as int + 10
  }

  /** Every byte is spelled by its two hexadecimal digits, the high one first. */
  lemma {:induction false} EncodeReads(raw: seq<Byte>, k: nat)
    requires k < |raw|
    ensures |EncodeToString(raw)| == 2 * |raw|
    ensures 16 * HexValue(EncodeToString(raw)[2 * k]) + HexValue(EncodeToString(raw)[2 * k + 1]) == raw[k] as int
  {
    if k > 0 {
      EncodeReads(raw[1..], k - 1);
    } else if |raw| > 1 {
      EncodeReads(raw[1..], 0);
    }
  }

  // ----- the order of keys -----

  /** a and b agree before position k. */
  ghost predicate AgreeBefore(a: string, b: string, k: nat) {
    k <= |a| && k <= |b| && a[..k] == b[..k]
  }

  /** Somewhere a ends or has the smaller character, and before that they agree. */
  ghost predicate SmallerAt(a: string, b: string, k: nat) {
    AgreeBefore(a, b, k) && if k < |a| then k < |b| && a[k] < b[k] else true
  }

  lemma SmallerTail(a: string, b: string, k: nat)
    requires a != [] && b != [] && a[0] == b[0]
    ensures SmallerAt(a[1..], b[1..], k) <==> SmallerAt(a, b, k + 1)
  {
    assert a == [a[0]] + a[1..] && b == [b[0]] + b[1..];
    if k <= |a[1..]| && k <= |b[1..]| {
      assert a[..k + 1] == [a[0]] + a[1..][..k] && b[..k + 1] == [b[0]] + b[1..][..k];
      assert a[1..][..k] == a[..k + 1][1..] && b[1..][..k] == b[..k + 1][1..];
    }
  }

  lemma FirstDiffers(a: string, b: string, k: nat)
    requires a != [] && b != [] && a[0] == b[0] && SmallerAt(a, b, k)
    ensures k > 0
  {
  }

  lemma SameStart(a: string, b: string, k: nat)
    requires AgreeBefore(a, b, k) && k > 0
    ensures a[0] == b[0]
  {
    assert a[..k][0] == a[0] && b[..k][0] == b[0];
  }

  lemma OnlyAtTheStart(a: string, b: string, k: nat)
    requires a != [] && (b == [] || a[0] != b[0]) && SmallerAt(a, b, k)
    ensures b != [] && a[0] < b[0]
  {
    if k > 0 {
      SameStart(a, b, k);
    }
  }

  /** Keys are compared character by character: at the first difference the smaller character, or the
      end of the string, comes first. */
  lemma {:induction false} KeysAreCompared(a: string, b: string)
    ensures LexLe(a, b) <==> exists k: nat :: SmallerAt(a, b, k)
  {
    if a == [] {
      assert a[..0] == b[..0];
      assert SmallerAt(a, b, 0);
    } else if b != [] && a[0] == b[0] {
      KeysAreCompared(a[1..], b[1..]);
      hide SmallerAt;
      if k: nat :| SmallerAt(a[1..], b[1..], k) {
        SmallerTail(a, b, k);
      }
      if k: nat :| SmallerAt(a, b, k) {
        FirstDiffers(a, b, k);
        SmallerTail(a, b, k - 1);
      }
    } else {
      if b != [] && a[0] < b[0] {
        assert a[..0] == b[..0] && SmallerAt(a, b, 0);
      }
      if k: nat :| SmallerAt(a, b, k) {
        OnlyAtTheStart(a, b, k);
      }
    }
  }

  // ----- a series spelled out -----

  lemma TwoSorted(s: string, t: string)
    requires LexLe(s, t)
    ensures Sort([t, s]) == [s, t]
  {
    assert multiset([t, s]) == multiset([s, t]);
    assert Sorted([s, t]);
    hide Sort, LexLe;
    SortedIsUnique(Sort([t, s]), [s, t]);
  }

  lemma TwoEntries(k: string, x: Value, l: string, y: Value)
    requires k != l && LexLe(k, l)
    ensures var entries := [Entry(l, y), Entry(k, x)];
            && SortedKeys(entries) == [k, l] && k in KeysOf(entries) && l in KeysOf(entries)
            && Get(entries, k) == x && Get(entries, l) == y
  {
    var entries := [Entry(l, y), Entry(k, x)];
    assert KeysOf(entries) == [l, k];
    TwoSorted(k, l);
    SortedKeysAre(entries);
    assert Find(entries, l) == 0;
    assert entries[1..] == [Entry(k, x)] && Find(entries[1..], k) == 0 && Find(entries, k) == 1;
    hide Sort, LexLe, SortedKeys;
  }

  /** Two attributes, inserted out of order. */
  lemma AttributesSpelled(sp: Spelling, name: string, k: string, x: Value, l: string, y: Value)
    requires k != l && LexLe(k, l)
    ensures IdentityKey(sp, name, [Entry(l, y), Entry(k, x)])
         == "metric=" + name + ("|attr=" + k + ":" + ValueKey(sp, x) + ("|attr=" + l + ":" + ValueKey(sp, y) + ""))
  {
    var entries := [Entry(l, y), Entry(k, x)];
    TwoEntries(k, x, l, y);
    hide LexLe, Sort, SortedKeys, ValueKey, Get, KeysOf;
    assert [k, l][1..] == [l] && [l][1..] == [];
    assert AttributesBody(sp, entries, [l]) == "|attr=" + l + ":" + ValueKey(sp, y) + "";
  }

  /** A nested map of two entries, inserted out of order. */
  lemma MapSpelled(sp: Spelling, k: string, x: Value, l: string, y: Value)
    requires k != l && LexLe(k, l)
    ensures ValueKey(sp, MapValue([Entry(l, y), Entry(k, x)]))
         == "{" + ("" + k + ":" + ValueKey(sp, x) + ("," + l + ":" + ValueKey(sp, y) + "")) + "}"
  {
    var v := MapValue([Entry(l, y), Entry(k, x)]);
    TwoEntries(k, x, l, y);
    hide LexLe, Sort, SortedKeys, Get, KeysOf;
    assert [k, l][1..] == [l] && [l][1..] == [];
    assert MapBody(sp, v, [l], false) == "," + l + ":" + ValueKey(sp, y) + "";
    assert MapBody(sp, v, [k, l], true) == "" + k + ":" + ValueKey(sp, x) + MapBody(sp, v, [l], false);
  }

  /** A slice of two items. */
  lemma SliceSpelled(sp: Spelling, x: Value, y: Value)
    ensures ValueKey(sp, SliceValue([x, y])) == "[" + ("" + ValueKey(sp, x) + ("," + ValueKey(sp, y) + "")) + "]"
  {
    var v := SliceValue([x, y]);
    assert SliceBody(sp, v, 2) == "";
    assert SliceBody(sp, v, 1) == "," + ValueKey(sp, y) + "";
    assert SliceBody(sp, v, 0) == "" + ValueKey(sp, x) + SliceBody(sp, v, 1);
  }

  /** All other values, each behind its own tag. */
  lemma AtomsSpelled(sp: Spelling, s: string, i: int, raw: seq<Byte>, bits: bv64)
    ensures ValueKey(sp, Empty) == "empty" && ValueKey(sp, Str(s)) == "str:" + s
    ensures ValueKey(sp, Int(i)) == "int:" + FormatInt(i) && ValueKey(sp, Bytes(raw)) == "bytes:" + EncodeToString(raw)
    ensures ValueKey(sp, Bool(true)) == "bool:true" && ValueKey(sp, Bool(false)) == "bool:false"
    ensures ValueKey(sp, Double(bits)) == "double:" + FormatFloat(sp, bits)
  {
    hide FormatInt, EncodeToString, FormatFloat;
  }
}
