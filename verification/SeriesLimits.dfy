/** Which characters names, keys and strings may hold for the text of a series to identify it
    (series_hash.go): all but the few that end them, none of which can be allowed. */
module SeriesLimits {
  import opened SeriesKey

  /** The characters allowed in metric names, in keys and in strings. */
  datatype Charset = Charset(name: char -> bool, key: char -> bool, text: char -> bool) {
    /** Everything harmless is allowed. */
    ghost predicate Plain() {
      && (forall c :: c != '|' ==> name(c))
      && (forall c :: c != ':' && c != '}' ==> key(c))
      && (forall c :: !IsEnd(c) ==> text(c))
    }

    /** Nothing else is. */
    ghost predicate Safe() {
      !name('|') && !key(':') && !key('}') && forall c :: text(c) ==> !IsEnd(c)
    }
  }

  predicate AllIn(s: string, allowed: char -> bool) {
    forall k :: 0 <= k < |s| ==> allowed(s[k])
  }

  /** Keys and strings made of allowed characters, at every depth. */
  predicate StringsOver(cs: Charset, v: Value) {
    match v
    case Str(s) => AllIn(s, cs.text)
    case MapValue(entries) => forall e :: e in entries ==> AllIn(e.key, cs.key) && StringsOver(cs, e.value)
    case SliceValue(items) => forall x :: x in items ==> StringsOver(cs, x)
    case _ => true
  }

  /** No two different series over these characters have the same identity text. */
  ghost predicate IdentifiesOver(sp: Spelling, cs: Charset) {
    forall name, a, name', b ::
      (&& AllIn(name, cs.name) && AllIn(name', cs.name)
       && StringsOver(cs, MapValue(a)) && StringsOver(cs, MapValue(b))
       && IdentityKey(sp, name, a) == IdentityKey(sp, name', b))
      ==> name == name' && SameAttributes(a, b)
  }

  lemma {:induction false} StringsOverClean(cs: Charset, v: Value)
    requires StringsOver(cs, v) && cs.Safe()
    ensures CleanValue(v)
  {
    match v
    case MapValue(entries) =>
      forall e | e in entries ensures CleanKey(e.key) && CleanValue(e.value) {
        StringsOverClean(cs, e.value);
      }
    case SliceValue(items) =>
      forall x | x in items ensures CleanValue(x) {
        StringsOverClean(cs, x);
      }
    case _ =>
  }

  lemma SortedKeysOf(entries: seq<Entry>, ks: seq<string>)
    requires Sorted(ks) && multiset(ks) == multiset(KeysOf(entries))
    ensures SortedKeys(entries) == ks
  {
    SortedIsUnique(Sort(KeysOf(entries)), ks);
  }

  /** A series whose one attribute holds v. */
  function OneAttribute(v: Value): seq<Entry> { [Entry("k", v)] }

  lemma OneAttributeText(sp: Spelling, v: Value)
    ensures IdentityKey(sp, "", OneAttribute(v)) == MetricTag() + "" + (AttrTag() + "k" + ":" + ValueKey(sp, v))
    ensures KeysOf(OneAttribute(v)) == ["k"] && Get(OneAttribute(v), "k") == v
  {
    hide ValueKey, AttrTag, MetricTag;
    var attrs := OneAttribute(v);
    assert KeysOf(attrs) == ["k"];
    SortedKeysOf(attrs, ["k"]);
    assert AttributesBody(sp, attrs, []) == "";
    assert AttributesBody(sp, attrs, ["k"]) == AttrTag() + "k" + ":" + ValueKey(sp, v) + AttributesBody(sp, attrs, []);
  }

  /** Two different series over the characters with one text. */
  lemma IdentityCollision(sp: Spelling, cs: Charset, name: string, a: seq<Entry>, name': string, b: seq<Entry>)
    requires AllIn(name, cs.name) && AllIn(name', cs.name)
    requires StringsOver(cs, MapValue(a)) && StringsOver(cs, MapValue(b))
    requires IdentityKey(sp, name, a) == IdentityKey(sp, name', b) && !(name == name' && SameAttributes(a, b))
    ensures !IdentifiesOver(sp, cs)
  {
    hide IdentityKey, SameAttributes, StringsOver, AllIn;
  }

  lemma NoName(cs: Charset)
    ensures AllIn("", cs.name)
  {
  }

  lemma OneEntryKeys(k: string, x: Value)
    ensures var es := [Entry(k, x)]; KeysOf(es) == [k] && SortedKeys(es) == [k] && Get(es, k) == x
  {
    var es := [Entry(k, x)];
    assert KeysOf(es) == [k];
    SortedKeysOf(es, [k]);
  }

  lemma OneAttributeDiffers(v: Value, w: Value)
    requires !SameValue(v, w)
    ensures !SameAttributes(OneAttribute(v), OneAttribute(w))
  {
    var a, b := OneAttribute(v), OneAttribute(w);
    OneEntryKeys("k", v);
    OneEntryKeys("k", w);
    assert "k" in KeysOf(a) && "k" in KeysOf(b);
    hide SortedKeys;
  }

  /** The keys of the examples. */
  lemma PlainKeys(cs: Charset)
    requires cs.Plain()
    ensures AllIn("a", cs.key) && AllIn("k", cs.key) && AllIn("l", cs.key) && AllIn("str", cs.key)
  {
  }

  lemma OneAttributeOver(cs: Charset, v: Value)
    requires cs.Plain() && StringsOver(cs, v)
    ensures StringsOver(cs, MapValue(OneAttribute(v)))
  {
    PlainKeys(cs);
    hide AllIn;
  }

  /** Two different values over the cs characters with one key make two series with one identity. */
  lemma ValueCollision(sp: Spelling, cs: Charset, v: Value, w: Value)
    requires cs.Plain() && StringsOver(cs, v) && StringsOver(cs, w)
    requires ValueKey(sp, v) == ValueKey(sp, w) && !SameValue(v, w)
    ensures !IdentifiesOver(sp, cs)
  {
    hide *;
    OneAttributeText(sp, v);
    OneAttributeText(sp, w);
    OneAttributeDiffers(v, w);
    OneAttributeOver(cs, v);
    OneAttributeOver(cs, w);
    NoName(cs);
    IdentityCollision(sp, cs, "", OneAttribute(v), "", OneAttribute(w));
  }

  lemma CommaCollides(sp: Spelling, cs: Charset)
    requires cs.Plain() && cs.text(',')
    ensures !IdentifiesOver(sp, cs)
  {
    DelimitersCollide(sp);
    hide ValueKey, IdentifiesOver, SameValue;
    ValueCollision(sp, cs, SliceValue([Str("a,str:b")]), SliceValue([Str("a"), Str("b")]));
  }

  lemma LengthsDiffer(xs: seq<Value>, ys: seq<Value>)
    requires |xs| != |ys|
    ensures !SameValue(SliceValue(xs), SliceValue(ys))
  {
  }

  lemma SliceEnd(sp: Spelling, v: Value)
    requires v.SliceValue?
    ensures SliceBody(sp, v, |v.items|) == ""
  {
  }

  lemma EmptyText(s: string)
    ensures s + "" == s && "" + s == s
  {
  }

  lemma OneItemText(sp: Spelling, x: Value)
    ensures ValueKey(sp, SliceValue([x])) == "[" + ValueKey(sp, x) + "]"
  {
    var v := SliceValue([x]);
    SliceKeyText(sp, v, "");
    SliceBodyStep(sp, v, 0, "[");
    SliceEnd(sp, v);
    hide ValueKey, SliceBody;
    EmptyText(ValueKey(sp, v));
    EmptyText("[");
    EmptyText("[" + ValueKey(sp, x));
  }

  lemma TwoItemsText(sp: Spelling, x: Value, y: Value)
    ensures ValueKey(sp, SliceValue([x, y])) == "[" + ValueKey(sp, x) + "," + ValueKey(sp, y) + "]"
  {
    var v := SliceValue([x, y]);
    SliceKeyText(sp, v, "");
    SliceBodyStep(sp, v, 0, "[");
    SliceBodyStep(sp, v, 1, "[" + ValueKey(sp, x));
    SliceEnd(sp, v);
    hide ValueKey, SliceBody;
    EmptyText(ValueKey(sp, v));
    EmptyText("[");
    EmptyText("[" + ValueKey(sp, x) + "," + ValueKey(sp, y));
  }

  lemma MapEnd(sp: Spelling, v: Value)
    requires v.MapValue?
    ensures MapBody(sp, v, [], false) == ""
  {
  }

  lemma OneEntryText(sp: Spelling, k: string, x: Value)
    ensures ValueKey(sp, MapValue([Entry(k, x)])) == "{" + k + ":" + ValueKey(sp, x) + "}"
  {
    var v := MapValue([Entry(k, x)]);
    OneEntryKeys(k, x);
    MapKeyText(sp, v, "");
    MapBodyStep(sp, v, [k], true, "{");
    MapEnd(sp, v);
    hide ValueKey, MapBody, SortedKeys, Get;
    assert [k][1..] == [];
    EmptyText(ValueKey(sp, v));
    EmptyText("{");
    EmptyText("{" + k + ":" + ValueKey(sp, x));
  }

  lemma TwoEntryKeys(k: string, x: Value, l: string, y: Value)
    requires LexLe(k, l) && k != l
    ensures var es := [Entry(k, x), Entry(l, y)];
            KeysOf(es) == [k, l] && SortedKeys(es) == [k, l] && Get(es, k) == x && Get(es, l) == y
  {
    var es := [Entry(k, x), Entry(l, y)];
    hide LexLe;
    assert KeysOf(es) == [k, l];
    SortedKeysOf(es, [k, l]);
    hide SortedKeys;
    assert es[1..] == [Entry(l, y)] && KeysOf(es[1..]) == [l];
  }

  lemma TwoEntriesText(sp: Spelling, k: string, x: Value, l: string, y: Value)
    requires LexLe(k, l) && k != l
    ensures ValueKey(sp, MapValue([Entry(k, x), Entry(l, y)]))
         == "{" + k + ":" + ValueKey(sp, x) + "," + l + ":" + ValueKey(sp, y) + "}"
  {
    var v := MapValue([Entry(k, x), Entry(l, y)]);
    TwoEntryKeys(k, x, l, y);
    MapKeyText(sp, v, "");
    MapBodyStep(sp, v, [k, l], true, "{");
    assert [k, l][1..] == [l] && [l][1..] == [];
    MapBodyStep(sp, v, [l], false, "{" + k + ":" + ValueKey(sp, x));
    MapEnd(sp, v);
    hide ValueKey, MapBody, SortedKeys, Get, LexLe;
    EmptyText(ValueKey(sp, v));
    EmptyText("{");
    EmptyText("{" + k + ":" + ValueKey(sp, x) + "," + l + ":" + ValueKey(sp, y));
  }

  lemma StrText(sp: Spelling, s: string)
    ensures ValueKey(sp, Str(s)) == "str:" + s
  {
  }

  /** A closing character moves from the string before a comma to the one after it. */
  lemma BracketMoves(x: string, y: string)
    ensures "[" + ("[" + x + "]") + "," + (y + "]") + "]" == "[" + ("[" + (x + "]") + "," + y + "]") + "]"
  {
  }

  lemma BraceMoves(x: string, y: string)
    ensures "[" + ("{" + "k" + ":" + x + "}") + "," + ("str:" + (y + "}")) + "]"
         == "[" + ("{" + "k" + ":" + (x + "}") + "," + "str" + ":" + y + "}") + "]"
  {
    assert "str:" == "str" + ":";
  }

  lemma StrAppend(sp: Spelling, s: string, t: string)
    ensures ValueKey(sp, Str(s + t)) == ValueKey(sp, Str(s)) + t
  {
    StrText(sp, s);
    StrText(sp, s + t);
    RegroupPair("str:", s, t);
  }

  lemma OverStr(cs: Charset, s: string, c: char)
    requires FreeOfEnds(s) && cs.text(c) && cs.Plain()
    ensures StringsOver(cs, Str(s)) && StringsOver(cs, Str(s + [c]))
  {
  }

  lemma OverSlice(cs: Charset, items: seq<Value>)
    requires forall k :: 0 <= k < |items| ==> StringsOver(cs, items[k])
    ensures StringsOver(cs, SliceValue(items))
  {
  }

  lemma OverMap(cs: Charset, entries: seq<Entry>)
    requires forall k :: 0 <= k < |entries| ==> AllIn(entries[k].key, cs.key) && StringsOver(cs, entries[k].value)
    ensures StringsOver(cs, MapValue(entries))
  {
  }

  lemma CleanWords()
    ensures FreeOfEnds("a") && FreeOfEnds("b") && FreeOfEnds("str:b") && CleanKey("k") && CleanKey("str")
      && CleanKey("l")
    ensures FreeOfEnds("") && FreeOfEnds("attr=l:str:b") && LexLe("k", "str") && LexLe("k", "l") && "k" != "str"
      && "k" != "l"
  {
  }

  lemma BracketTexts(sp: Spelling)
    ensures ValueKey(sp, SliceValue([SliceValue([Str("a")]), Str("b" + [']'])]))
         == ValueKey(sp, SliceValue([SliceValue([Str("a" + [']']), Str("b")])]))
  {
    hide *;
    var x, y := "a" + [']'], "b" + [']'];
    TwoItemsText(sp, SliceValue([Str("a")]), Str(y));
    OneItemText(sp, Str("a"));
    OneItemText(sp, SliceValue([Str(x), Str("b")]));
    TwoItemsText(sp, Str(x), Str("b"));
    StrAppend(sp, "a", [']']);
    StrAppend(sp, "b", [']']);
    BracketMoves(ValueKey(sp, Str("a")), ValueKey(sp, Str("b")));
  }

  lemma OverBracket(cs: Charset)
    requires cs.Plain() && cs.text(']')
    ensures StringsOver(cs, SliceValue([SliceValue([Str("a")]), Str("b" + [']'])]))
    ensures StringsOver(cs, SliceValue([SliceValue([Str("a" + [']']), Str("b")])]))
  {
    CleanWords();
    OverStr(cs, "a", ']');
    OverStr(cs, "b", ']');
    hide StringsOver, FreeOfEnds, CleanKey, LexLe, AllIn;
    OverSlice(cs, [Str("a")]);
    OverSlice(cs, [Str("a" + [']']), Str("b")]);
    OverSlice(cs, [SliceValue([Str("a")]), Str("b" + [']'])]);
    OverSlice(cs, [SliceValue([Str("a" + [']']), Str("b")])]);
  }

  lemma BracketCollides(sp: Spelling, cs: Charset)
    requires cs.Plain() && cs.text(']')
    ensures !IdentifiesOver(sp, cs)
  {
    var one := SliceValue([SliceValue([Str("a")]), Str("b" + [']'])]);
    var two := SliceValue([SliceValue([Str("a" + [']']), Str("b")])]);
    LengthsDiffer(one.items, two.items);
    hide *;
    BracketTexts(sp);
    OverBracket(cs);
    ValueCollision(sp, cs, one, two);
  }

  /** A map inside a slice, with a closing brace in its own string or in the string after it. */
  function BraceOutside(): seq<Value> { [MapValue([Entry("k", Str("a"))]), Str("str:b" + ['}'])] }

  function BraceInside(): seq<Value> { [MapValue([Entry("k", Str("a" + ['}'])), Entry("str", Str("b"))])] }

  lemma BraceTexts(sp: Spelling)
    ensures ValueKey(sp, SliceValue(BraceOutside())) == ValueKey(sp, SliceValue(BraceInside()))
  {
    CleanWords();
    hide LexLe, ValueKey, FreeOfEnds, CleanKey;
    var x, y := "a" + ['}'], "str:b" + ['}'];
    TwoItemsText(sp, MapValue([Entry("k", Str("a"))]), Str(y));
    OneEntryText(sp, "k", Str("a"));
    OneItemText(sp, MapValue([Entry("k", Str(x)), Entry("str", Str("b"))]));
    TwoEntriesText(sp, "k", Str(x), "str", Str("b"));
    StrAppend(sp, "a", ['}']);
    StrText(sp, y);
    StrText(sp, "b");
    BraceMoves(ValueKey(sp, Str("a")), ValueKey(sp, Str("b")));
    assert "str:b" == "str:" + "b";
    hide *;
  }

  lemma OverBrace(cs: Charset)
    requires cs.Plain() && cs.text('}')
    ensures StringsOver(cs, SliceValue(BraceOutside())) && StringsOver(cs, SliceValue(BraceInside()))
  {
    CleanWords();
    PlainKeys(cs);
    OverStr(cs, "a", '}');
    OverStr(cs, "b", '}');
    OverStr(cs, "str:b", '}');
    hide StringsOver, FreeOfEnds, CleanKey, LexLe, AllIn;
    OverMap(cs, [Entry("k", Str("a"))]);
    OverMap(cs, [Entry("k", Str("a" + ['}'])), Entry("str", Str("b"))]);
    OverSlice(cs, BraceOutside());
    OverSlice(cs, BraceInside());
  }

  lemma BraceCollides(sp: Spelling, cs: Charset)
    requires cs.Plain() && cs.text('}')
    ensures !IdentifiesOver(sp, cs)
  {
    LengthsDiffer(BraceOutside(), BraceInside());
    hide *;
    BraceTexts(sp);
    OverBrace(cs);
    ValueCollision(sp, cs, SliceValue(BraceOutside()), SliceValue(BraceInside()));
  }

  lemma TwoAttributesText(sp: Spelling, x: Value, y: Value)
    ensures IdentityKey(sp, "", [Entry("k", x), Entry("l", y)])
         == MetricTag() + "" + (AttrTag() + "k" + ":" + ValueKey(sp, x) + (AttrTag() + "l" + ":" + ValueKey(sp, y)))
  {
    var attrs := [Entry("k", x), Entry("l", y)];
    CleanWords();
    TwoEntryKeys("k", x, "l", y);
    hide ValueKey, SortedKeys, Get, AttrTag, MetricTag, LexLe, FreeOfEnds, CleanKey, KeysOf;
    assert ["k", "l"][1..] == ["l"] && ["l"][1..] == [];
    assert AttributesBody(sp, attrs, []) == "";
    assert AttributesBody(sp, attrs, ["l"]) == AttrTag() + "l" + ":" + ValueKey(sp, y) + "";
    EmptyText(AttrTag() + "l" + ":" + ValueKey(sp, y));
    assert AttributesBody(sp, attrs, ["k", "l"])
        == AttrTag() + "k" + ":" + ValueKey(sp, x) + AttributesBody(sp, attrs, ["l"]);
  }

  lemma BarTail()
    ensures ['|'] + "attr=l:str:b" == AttrTag() + "l" + ":" + ("str:" + "b")
  {
  }

  lemma BarTexts(sp: Spelling)
    ensures IdentityKey(sp, "", OneAttribute(Str("a" + ['|'] + "attr=l:str:b")))
         == IdentityKey(sp, "", [Entry("k", Str("a")), Entry("l", Str("b"))])
  {
    var tail := ['|'] + "attr=l:str:b";
    OneAttributeText(sp, Str("a" + ['|'] + "attr=l:str:b"));
    TwoAttributesText(sp, Str("a"), Str("b"));
    RegroupPair("a", ['|'], "attr=l:str:b");
    StrAppend(sp, "a", tail);
    StrText(sp, "b");
    hide *;
    BarTail();
    RegroupPair(AttrTag() + "k" + ":", ValueKey(sp, Str("a")), tail);
  }

  lemma OverBar(cs: Charset)
    requires cs.Plain() && cs.text('|')
    ensures StringsOver(cs, MapValue(OneAttribute(Str("a" + ['|'] + "attr=l:str:b"))))
    ensures StringsOver(cs, MapValue([Entry("k", Str("a")), Entry("l", Str("b"))]))
  {
    CleanWords();
    PlainKeys(cs);
    OverStr(cs, "a", '|');
    OverStr(cs, "b", '|');
    OverStr(cs, "attr=l:str:b", '|');
    var s, t := "a" + ['|'], "attr=l:str:b";
    assert forall k :: 0 <= k < |s + t| ==> (s + t)[k] == if k < |s| then s[k] else t[k - |s|];
    assert StringsOver(cs, Str(s + t));
    hide StringsOver, FreeOfEnds, CleanKey, LexLe, AllIn;
    OverMap(cs, OneAttribute(Str(s + t)));
    OverMap(cs, [Entry("k", Str("a")), Entry("l", Str("b"))]);
  }

  lemma KeyCountsDiffer(a: seq<Entry>, b: seq<Entry>)
    requires |a| != |b|
    ensures !SameAttributes(a, b)
  {
    assert |multiset(KeysOf(a))| == |a| && |multiset(KeysOf(b))| == |b|;
  }

  lemma BarCollides(sp: Spelling, cs: Charset)
    requires cs.Plain() && cs.text('|')
    ensures !IdentifiesOver(sp, cs)
  {
    var a, b := OneAttribute(Str("a" + ['|'] + "attr=l:str:b")), [Entry("k", Str("a")), Entry("l", Str("b"))];
    BarTexts(sp);
    OverBar(cs);
    KeyCountsDiffer(a, b);
    hide *;
    NoName(cs);
    IdentityCollision(sp, cs, "", a, "", b);
  }

  lemma EmptyKey(sp: Spelling)
    ensures ValueKey(sp, Empty) == "empty"
  {
  }

  /** A key with a colon in it: the rest of the key passes for the beginning of its value. */
  lemma ColonTexts(sp: Spelling)
    ensures ValueKey(sp, MapValue([Entry("a" + [':'] + "str", Empty)]))
         == ValueKey(sp, MapValue([Entry("a", Str("empty"))]))
  {
    OneEntryText(sp, "a" + [':'] + "str", Empty);
    OneEntryText(sp, "a", Str("empty"));
    StrText(sp, "empty");
    EmptyKey(sp);
    hide ValueKey;
    assert "{" + ("a" + [':'] + "str") + ":" + "empty" + "}" == "{" + "a" + ":" + ("str:" + "empty") + "}";
  }

  lemma OverKeyed(cs: Charset, k: string, v: Value)
    requires AllIn(k, cs.key) && StringsOver(cs, v)
    ensures StringsOver(cs, MapValue([Entry(k, v)]))
  {
  }

  lemma KeysDiffer(k: string, v: Value, l: string, w: Value)
    requires k != l
    ensures !SameValue(MapValue([Entry(k, v)]), MapValue([Entry(l, w)]))
  {
    OneEntryKeys(k, v);
    OneEntryKeys(l, w);
    assert k in multiset([k]) && k !in multiset([l]);
    hide SortedKeys, Get;
  }

  lemma ColonCollides(sp: Spelling, cs: Charset)
    requires cs.Plain() && cs.key(':')
    ensures !IdentifiesOver(sp, cs)
  {
    var k := "a" + [':'] + "str";
    assert |k| == 5 && |"a"| == 1;
    assert AllIn(k, cs.key) && AllIn("a", cs.key) && StringsOver(cs, Empty);
    CleanWords();
    OverStr(cs, "empty", 'x') by { assert FreeOfEnds("empty"); }
    hide *;
    KeysDiffer(k, Empty, "a", Str("empty"));
    ColonTexts(sp);
    OverKeyed(cs, k, Empty);
    OverKeyed(cs, "a", Str("empty"));
    ValueCollision(sp, cs, MapValue([Entry(k, Empty)]), MapValue([Entry("a", Str("empty"))]));
  }

  lemma NoEntriesText(sp: Spelling)
    ensures ValueKey(sp, MapValue([])) == "{" + "}"
  {
    var v := MapValue([]);
    assert KeysOf(v.entries) == [];
    SortedKeysOf(v.entries, []);
    MapKeyText(sp, v, "");
    assert MapBody(sp, v, [], true) == "";
    hide ValueKey, MapBody, SortedKeys;
    EmptyText(ValueKey(sp, v));
    EmptyText("{");
  }

  lemma BraceKeyMoves(e: string)
    ensures "[" + ("{" + "}") + "," + ("{" + "y" + ":" + e + "}") + "]"
         == "[" + ("{" + (['}'] + ",{y") + ":" + e + "}") + "]"
  {
  }

  /** A key that begins with a closing brace passes for the end of an empty map. */
  lemma BraceKeyTexts(sp: Spelling)
    ensures ValueKey(sp, SliceValue([MapValue([]), MapValue([Entry("y", Empty)])]))
         == ValueKey(sp, SliceValue([MapValue([Entry(['}'] + ",{y", Empty)])]))
  {
    hide ValueKey;
    TwoItemsText(sp, MapValue([]), MapValue([Entry("y", Empty)]));
    NoEntriesText(sp);
    OneEntryText(sp, "y", Empty);
    OneItemText(sp, MapValue([Entry(['}'] + ",{y", Empty)]));
    OneEntryText(sp, ['}'] + ",{y", Empty);
    EmptyKey(sp);
    BraceKeyMoves(ValueKey(sp, Empty));
  }

  lemma OverBraceKey(cs: Charset)
    requires cs.Plain() && cs.key('}')
    ensures StringsOver(cs, SliceValue([MapValue([]), MapValue([Entry("y", Empty)])]))
    ensures StringsOver(cs, SliceValue([MapValue([Entry(['}'] + ",{y", Empty)])]))
  {
    assert AllIn(['}'] + ",{y", cs.key) && AllIn("y", cs.key) && StringsOver(cs, Empty)
      && StringsOver(cs, MapValue([]));
    hide StringsOver, AllIn;
    OverKeyed(cs, "y", Empty);
    OverKeyed(cs, ['}'] + ",{y", Empty);
    OverSlice(cs, [MapValue([]), MapValue([Entry("y", Empty)])]);
    OverSlice(cs, [MapValue([Entry(['}'] + ",{y", Empty)])]);
  }

  lemma BraceKeyCollides(sp: Spelling, cs: Charset)
    requires cs.Plain() && cs.key('}')
    ensures !IdentifiesOver(sp, cs)
  {
    var one, two := [MapValue([]), MapValue([Entry("y", Empty)])], [MapValue([Entry(['}'] + ",{y", Empty)])];
    hide *;
    LengthsDiffer(one, two);
    BraceKeyTexts(sp);
    OverBraceKey(cs);
    ValueCollision(sp, cs, SliceValue(one), SliceValue(two));
  }

  lemma NameTail()
    ensures ['|'] + "attr=k:str:a" == AttrTag() + "k" + ":" + ("str:" + "a")
  {
  }

  /** A name with a bar in it passes for a name and an attribute. */
  lemma NameTexts(sp: Spelling)
    ensures IdentityKey(sp, ['|'] + "attr=k:str:a", []) == IdentityKey(sp, "", OneAttribute(Str("a")))
  {
    OneAttributeText(sp, Str("a"));
    StrText(sp, "a");
    assert KeysOf([]) == [];
    SortedKeysOf([], []);
    assert AttributesBody(sp, [], []) == "";
    assert AttributesKey(sp, []) == "" by { hide AttributesBody; }
    hide ValueKey, AttributesKey, SortedKeys;
    var name := ['|'] + "attr=k:str:a";
    assert IdentityKey(sp, name, []) == MetricTag() + name + "";
    NameTail();
    hide *;
    EmptyText(MetricTag());
    EmptyText(MetricTag() + name);
  }

  lemma OverName(cs: Charset)
    requires cs.Plain() && cs.name('|')
    ensures AllIn(['|'] + "attr=k:str:a", cs.name) && StringsOver(cs, Str("a")) && StringsOver(cs, MapValue([]))
  {
  }

  lemma NameCollides(sp: Spelling, cs: Charset)
    requires cs.Plain() && cs.name('|')
    ensures !IdentifiesOver(sp, cs)
  {
    var name := ['|'] + "attr=k:str:a";
    assert |name| > 0;
    hide *;
    OverName(cs);
    OneAttributeOver(cs, Str("a"));
    NameTexts(sp);
    NoName(cs);
    IdentityCollision(sp, cs, name, [], "", OneAttribute(Str("a")));
  }

  /** The text identifies every series exactly when names may not hold a bar, keys neither colon
      nor closing brace, and strings none of the four closing characters: allowing one of these
      makes two series collide, and allowing everything else never does. */
  lemma IdentifiesExactlyWhen(sp: Spelling, cs: Charset)
    requires sp.Valid() && cs.Plain()
    ensures IdentifiesOver(sp, cs) <==> cs.Safe()
  {
    hide IdentityKey, SameAttributes, StringsOver;
    if cs.Safe() {
      forall name, a, name', b
        | && AllIn(name, cs.name) && AllIn(name', cs.name)
          && StringsOver(cs, MapValue(a)) && StringsOver(cs, MapValue(b))
          && IdentityKey(sp, name, a) == IdentityKey(sp, name', b)
        ensures name == name' && SameAttributes(a, b)
      {
        StringsOverClean(cs, MapValue(a));
        StringsOverClean(cs, MapValue(b));
        IdentityIsCanonical(sp, name, a, name', b);
      }
    } else if cs.name('|') {
      NameCollides(sp, cs);
    } else if cs.key(':') {
      ColonCollides(sp, cs);
    } else if cs.key('}') {
      BraceKeyCollides(sp, cs);
    } else {
      var c :| cs.text(c) && IsEnd(c);
      if c == ',' {
        CommaCollides(sp, cs);
      } else if c == ']' {
        BracketCollides(sp, cs);
      } else if c == '}' {
        BraceCollides(sp, cs);
      } else {
        BarCollides(sp, cs);
      }
    }
  }
}
