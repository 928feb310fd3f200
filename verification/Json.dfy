/** JSON values as the store compares them: the order-forgetting canonical printer and the
    comparator of snapshot values, each measured against a meaning that forgets the same order. */
module Json {
  import opened Texts

  const Hyphen: Unit := 0x2D
  const QuoteMark: Unit := 0x22
  const Backslash: Unit := 0x5C
  const Comma: Unit := 0x2C
  const Colon: Unit := 0x3A
  const OpenBracket: Unit := 0x5B
  const CloseBracket: Unit := 0x5D
  const OpenBrace: Unit := 0x7B
  const CloseBrace: Unit := 0x7D

  predicate IsDigit(u: Unit) { 0x30 <= u <= 0x39 }

  /** The units a printed finite number is made of: digits, point, sign and exponent. */
  predicate NumeralUnit(u: Unit)
  {
    IsDigit(u) || u in {Hyphen, 0x2B, 0x2E, 0x65}
  }

  predicate IsNumeral(t: Text)
  {
    t != [] && (IsDigit(t[0]) || t[0] == Hyphen) && forall i :: 0 <= i < |t| ==> NumeralUnit(t[i])
  }

  /** A finite number is known by its printed text, which is the same for 0 and -0 only. */
  type Numeral = t: Text | IsNumeral(t) witness [0x30]

  datatype NonFinite = PositiveInfinity | NegativeInfinity | NotANumber

  datatype Field = Field(key: Text, value: Json)

  datatype Json =
    | Null
    | Boolean(b: bool)
    | Number(n: Numeral)
    | Extreme(e: NonFinite)
    | Str(t: Text)
    | Arr(items: seq<Json>)
    | Obj(fields: seq<Field>)

  function Keys(fields: seq<Field>): (keys: seq<Text>)
    ensures |keys| == |fields|
    ensures forall i :: 0 <= i < |fields| ==> keys[i] == fields[i].key
  {
    seq(|fields|, i requires 0 <= i < |fields| => fields[i].key)
  }

  /** No object holds a key twice, at any depth. */
  predicate WellFormed(x: Json)
  {
    match x
    case Arr(items) => forall i :: 0 <= i < |items| ==> WellFormed(items[i])
    case Obj(fields) => NoRepeatedKey(fields) && forall i :: 0 <= i < |fields| ==> WellFormed(fields[i].value)
    case _ => true
  }

  predicate NoRepeatedKey(fields: seq<Field>)
  {
    forall i, j :: 0 <= i < j < |fields| ==> fields[i].key != fields[j].key
  }

  // ------------------------------------------------------------------ string literals

  predicate IsHigh(u: Unit) { 0xD800 <= u <= 0xDBFF }

  predicate IsLow(u: Unit) { 0xDC00 <= u <= 0xDFFF }

  function HexDigit(n: int): Unit
    requires 0 <= n < 16
  {
    if n < 10 then 0x30 + n else 0x61 + n - 10
  }

  function Hex(u: Unit): Text
  {
    [HexDigit(u / 0x1000), HexDigit(u / 0x100 % 0x10), HexDigit(u / 0x10 % 0x10), HexDigit(u % 0x10)]
  }

  /** The letter of the two-unit escapes, and 0 for units that have none. */
  function ShortEscape(u: Unit): Unit
  {
    if u == QuoteMark then QuoteMark else if u == Backslash then Backslash
    else if u == 0x08 then 0x62 else if u == 0x09 then 0x74 else if u == 0x0A then 0x6E
    else if u == 0x0C then 0x66 else if u == 0x0D then 0x72 else 0
  }

  /** One unit between its neighbours: a surrogate is printed raw only as half of a pair. */
  function Escape(afterHigh: bool, u: Unit, beforeLow: bool): Text
  {
    if ShortEscape(u) != 0 then [Backslash, ShortEscape(u)]
    else if u < 0x20 || (IsHigh(u) && !beforeLow) || (IsLow(u) && !afterHigh) then [Backslash, 0x75] + Hex(u)
    else [u]
  }

  function EscapeAll(afterHigh: bool, t: Text): Text
    decreases t
  {
    if t == [] then [] else Escape(afterHigh, t[0], |t| > 1 && IsLow(t[1])) + EscapeAll(IsHigh(t[0]), t[1..])
  }

  /** `JSON.stringify` of a string. */
  function Quote(t: Text): Text
  {
    [QuoteMark] + EscapeAll(false, t) + [QuoteMark]
  }

  lemma HexInjective(u: Unit, v: Unit)
    requires Hex(u) == Hex(v)
    ensures u == v
  {
    assert Hex(u)[0] == Hex(v)[0] && Hex(u)[1] == Hex(v)[1] && Hex(u)[2] == Hex(v)[2] && Hex(u)[3] == Hex(v)[3];
    HexParts(u);
    HexParts(v);
  }

  lemma HexParts(u: Unit)
    ensures u == u / 0x1000 * 0x1000 + u / 0x100 % 0x10 * 0x100 + u / 0x10 % 0x10 * 0x10 + u % 0x10
  {
    assert u / 0x100 / 0x10 == u / 0x1000 && u / 0x10 / 0x10 == u / 0x100;
  }

  /** A unit's code tells the unit and where the code ends. */
  lemma EscapeUnique(h: bool, u: Unit, l: bool, h': bool, u': Unit, l': bool, r: Text, r': Text)
    requires Escape(h, u, l) + r == Escape(h', u', l') + r'
    ensures u == u' && r == r'
  {
    var c, c' := Escape(h, u, l), Escape(h', u', l');
    assert c[0] == (c + r)[0] == (c' + r')[0] == c'[0];
    if |c| > 1 {
      assert c[1] == (c + r)[1] == (c' + r')[1] == c'[1];
      if c[1] == 0x75 {
        assert Hex(u) == (c + r)[2..6] == (c' + r')[2..6] == Hex(u');
        HexInjective(u, u');
      }
    }
    assert |c| == |c'|;
    assert r == (c + r)[|c|..] && r' == (c' + r')[|c|..];
  }

  lemma EscapeFirst(h: bool, u: Unit, l: bool)
    ensures Escape(h, u, l) != [] && Escape(h, u, l)[0] != QuoteMark
  {
  }

  lemma {:induction false} EscapeAllUnique(h: bool, t: Text, h': bool, t': Text, r: Text, r': Text)
    requires EscapeAll(h, t) + [QuoteMark] + r == EscapeAll(h', t') + [QuoteMark] + r'
    ensures t == t' && r == r'
    decreases t
  {
    hide Escape;
    var whole := EscapeAll(h, t) + [QuoteMark] + r;
    if t != [] {
      EscapeFirst(h, t[0], |t| > 1 && IsLow(t[1]));
      assert whole[0] != QuoteMark;
    }
    if t' != [] {
      EscapeFirst(h', t'[0], |t'| > 1 && IsLow(t'[1]));
      assert whole[0] != QuoteMark;
    }
    if t == [] || t' == [] {
      assert t == t' == [];
      assert r == whole[1..] == r';
    } else {
      var c, c' := Escape(h, t[0], |t| > 1 && IsLow(t[1])), Escape(h', t'[0], |t'| > 1 && IsLow(t'[1]));
      var rest, rest' := EscapeAll(IsHigh(t[0]), t[1..]) + [QuoteMark] + r, EscapeAll(IsHigh(t'[0]), t'[1..]) + [QuoteMark] + r';
      assert whole == c + rest == c' + rest';
      EscapeUnique(h, t[0], |t| > 1 && IsLow(t[1]), h', t'[0], |t'| > 1 && IsLow(t'[1]), rest, rest');
      EscapeAllUnique(IsHigh(t[0]), t[1..], IsHigh(t'[0]), t'[1..], r, r');
      assert t == [t[0]] + t[1..] && t' == [t'[0]] + t'[1..];
    }
  }

  /** A string literal is uniquely decodable, whatever follows it. */
  lemma QuoteUnique(t: Text, u: Text, r: Text, s: Text)
    requires Quote(t) + r == Quote(u) + s
    ensures t == u && r == s
  {
    assert (Quote(t) + r)[1..] == EscapeAll(false, t) + [QuoteMark] + r;
    assert (Quote(u) + s)[1..] == EscapeAll(false, u) + [QuoteMark] + s;
    EscapeAllUnique(false, t, false, u, r, s);
  }

  // ------------------------------------------------------------------ the canonical printer

  function JoinTail(parts: seq<Text>): Text
  {
    if parts == [] then [] else [Comma] + parts[0] + JoinTail(parts[1..])
  }

  /** `parts.join(",")` */
  function Join(parts: seq<Text>): Text
  {
    if parts == [] then [] else parts[0] + JoinTail(parts[1..])
  }

  datatype Printed = Printed(key: Text, value: Text)

  function Find(printed: seq<Printed>, key: Text): Text
  {
    if printed == [] then [] else if printed[0].key == key then printed[0].value else Find(printed[1..], key)
  }

  function Entry(key: Text, value: Text): Text
  {
    Quote(key) + [Colon] + value
  }

  function Entries(keys: seq<Text>, printed: seq<Printed>): (entries: seq<Text>)
    ensures |entries| == |keys|
    ensures forall i :: 0 <= i < |keys| ==> entries[i] == Entry(keys[i], Find(printed, keys[i]))
  {
    seq(|keys|, i requires 0 <= i < |keys| => Entry(keys[i], Find(printed, keys[i])))
  }

  /** `canonical`. */
  function Canonical(x: Json): Text
  {
    match x
    case Null => T("null")
    case Boolean(b) => if b then T("true") else T("false")
    case Number(n) => n
    case Extreme(_) => T("null")
    case Str(t) => Quote(t)
    case Arr(items) =>
      [OpenBracket] + Join(Sort(seq(|items|, i requires 0 <= i < |items| => Canonical(items[i])))) + [CloseBracket]
    case Obj(fields) =>
      var printed := seq(|fields|, i requires 0 <= i < |fields| => Printed(fields[i].key, Canonical(fields[i].value)));
      [OpenBrace] + Join(Entries(Sort(Keys(fields)), printed)) + [CloseBrace]
  }

  function PrintItems(items: seq<Json>): (printed: seq<Text>)
    ensures |printed| == |items|
    ensures forall i :: 0 <= i < |items| ==> printed[i] == Canonical(items[i])
  {
    seq(|items|, i requires 0 <= i < |items| => Canonical(items[i]))
  }

  function PrintFields(fields: seq<Field>): (printed: seq<Printed>)
    ensures |printed| == |fields|
    ensures forall i :: 0 <= i < |fields| ==> printed[i] == Printed(fields[i].key, Canonical(fields[i].value))
  {
    seq(|fields|, i requires 0 <= i < |fields| => Printed(fields[i].key, Canonical(fields[i].value)))
  }

  function ArrayParts(items: seq<Json>): seq<Text> { Sort(PrintItems(items)) }

  function ObjectParts(fields: seq<Field>): seq<Text> { Entries(Sort(Keys(fields)), PrintFields(fields)) }

  lemma CanonicalArr(items: seq<Json>)
    ensures Canonical(Arr(items)) == [OpenBracket] + Join(ArrayParts(items)) + [CloseBracket]
  {
    assert PrintItems(items) == seq(|items|, i requires 0 <= i < |items| => Canonical(items[i]));
  }

  lemma CanonicalObj(fields: seq<Field>)
    ensures Canonical(Obj(fields)) == [OpenBrace] + Join(ObjectParts(fields)) + [CloseBrace]
  {
    assert PrintFields(fields) == seq(|fields|, i requires 0 <= i < |fields| => Printed(fields[i].key, Canonical(fields[i].value)));
  }

  // ------------------------------------------------------------------ unique decodability

  predicate IsDelimiter(u: Unit)
  {
    u in {Comma, CloseBracket, CloseBrace}
  }

  predicate Delimited(r: Text)
  {
    r == [] || IsDelimiter(r[0])
  }

  predicate Opens(t: Text)
  {
    t != [] && !IsDelimiter(t[0])
  }

  /** Of two texts standing before a delimiter or the end, neither is mistaken for the other. */
  ghost predicate Separable(t: Text, u: Text)
  {
    forall r, s {:trigger t + r, u + s} :: Delimited(r) && Delimited(s) && t + r == u + s ==> t == u
  }

  lemma SeparableNow(t: Text, r: Text, u: Text, s: Text)
    requires Separable(t, u) && Delimited(r) && Delimited(s) && t + r == u + s
    ensures t == u && r == s
  {
    assert r == (t + r)[|t|..];
    assert s == (u + s)[|u|..];
  }

  ghost predicate AllSeparable(parts: seq<Text>, others: seq<Text>)
  {
    && (forall i :: 0 <= i < |parts| ==> Opens(parts[i]))
    && (forall j :: 0 <= j < |others| ==> Opens(others[j]))
    && (forall i, j :: 0 <= i < |parts| && 0 <= j < |others| ==> Separable(parts[i], others[j]))
  }

  lemma TailDelimited(parts: seq<Text>, close: Unit, r: Text)
    requires IsDelimiter(close)
    ensures Delimited(JoinTail(parts) + [close] + r)
  {
    if parts != [] {
      assert (JoinTail(parts) + [close] + r)[0] == Comma;
    }
  }

  lemma TailFirst(parts: seq<Text>, close: Unit, r: Text)
    ensures (JoinTail(parts) + [close] + r)[0] == if parts == [] then close else Comma
  {
  }

  lemma JoinFirst(parts: seq<Text>, close: Unit, r: Text)
    requires forall i :: 0 <= i < |parts| ==> Opens(parts[i])
    ensures parts == [] ==> (Join(parts) + [close] + r)[0] == close
    ensures parts != [] ==> Opens(parts[0]) && (Join(parts) + [close] + r)[0] == parts[0][0]
  {
  }

  lemma {:induction false} JoinTailUnique(parts: seq<Text>, others: seq<Text>, close: Unit, r: Text, s: Text)
    requires AllSeparable(parts, others) && close in {CloseBracket, CloseBrace}
    requires JoinTail(parts) + [close] + r == JoinTail(others) + [close] + s
    ensures parts == others
  {
    var whole, whole' := JoinTail(parts) + [close] + r, JoinTail(others) + [close] + s;
    TailFirst(parts, close, r);
    TailFirst(others, close, s);
    if parts != [] && others != [] {
      var rest, rest' := JoinTail(parts[1..]) + [close] + r, JoinTail(others[1..]) + [close] + s;
      assert whole == [Comma] + (parts[0] + rest) && whole' == [Comma] + (others[0] + rest');
      assert parts[0] + rest == whole[1..] == whole'[1..] == others[0] + rest';
      TailDelimited(parts[1..], close, r);
      TailDelimited(others[1..], close, s);
      SeparableNow(parts[0], rest, others[0], rest');
      JoinTailUnique(parts[1..], others[1..], close, r, s);
      assert parts == [parts[0]] + parts[1..] && others == [others[0]] + others[1..];
    }
  }

  lemma JoinAsTail(parts: seq<Text>, close: Unit, r: Text)
    requires parts != []
    ensures JoinTail(parts) + [close] + r == [Comma] + (Join(parts) + [close] + r)
  {
  }

  /** A joined list is uniquely decodable when its parts are. */
  lemma JoinUnique(parts: seq<Text>, others: seq<Text>, close: Unit, r: Text, s: Text)
    requires AllSeparable(parts, others) && close in {CloseBracket, CloseBrace}
    requires Join(parts) + [close] + r == Join(others) + [close] + s
    ensures parts == others
  {
    JoinFirst(parts, close, r);
    JoinFirst(others, close, s);
    if parts != [] && others != [] {
      JoinAsTail(parts, close, r);
      JoinAsTail(others, close, s);
      hide Join, JoinTail;
      JoinTailUnique(parts, others, close, r, s);
    }
  }

  lemma NumeralEnd(t: Numeral, r: Text)
    requires Delimited(r)
    ensures forall i :: 0 <= i < |t| ==> NumeralUnit((t + r)[i])
    ensures r != [] ==> !NumeralUnit((t + r)[|t|])
  {
  }

  lemma NumeralsSeparable(t: Numeral, u: Numeral)
    ensures Separable(t, u)
  {
    forall r, s | Delimited(r) && Delimited(s) && t + r == u + s ensures t == u {
      NumeralEnd(t, r);
      NumeralEnd(u, s);
      assert |t| + |r| == |u| + |s|;
      assert t == (t + r)[..|t|] && u == (u + s)[..|u|];
    }
  }

  lemma QuotesSeparable(t: Text, u: Text)
    ensures Separable(Quote(t), Quote(u))
  {
    forall r, s | Delimited(r) && Delimited(s) && Quote(t) + r == Quote(u) + s ensures Quote(t) == Quote(u) {
      QuoteUnique(t, u, r, s);
    }
  }

  lemma EntriesSeparable(k: Text, t: Text, l: Text, u: Text)
    requires Separable(t, u)
    ensures Separable(Entry(k, t), Entry(l, u))
  {
    forall r, s | Delimited(r) && Delimited(s) && Entry(k, t) + r == Entry(l, u) + s ensures Entry(k, t) == Entry(l, u) {
      EntryUnique(k, t, r, l, u, s);
    }
  }

  lemma EntryUnique(k: Text, t: Text, r: Text, l: Text, u: Text, s: Text)
    requires Separable(t, u) && Delimited(r) && Delimited(s) && Entry(k, t) + r == Entry(l, u) + s
    ensures k == l && t == u
  {
    assert Entry(k, t) + r == Quote(k) + ([Colon] + (t + r));
    assert Entry(l, u) + s == Quote(l) + ([Colon] + (u + s));
    QuoteUnique(k, l, [Colon] + (t + r), [Colon] + (u + s));
    assert t + r == ([Colon] + (t + r))[1..] == ([Colon] + (u + s))[1..] == u + s;
  }

  /** The unit a printed value starts with. */
  function FirstUnit(x: Json): Unit
  {
    match x
    case Null => 'n' as int
    case Boolean(b) => if b then 't' as int else 'f' as int
    case Number(n) => n[0]
    case Extreme(_) => 'n' as int
    case Str(_) => QuoteMark
    case Arr(_) => OpenBracket
    case Obj(_) => OpenBrace
  }

  lemma CanonicalFirst(x: Json)
    ensures Canonical(x) != [] && Canonical(x)[0] == FirstUnit(x) && Opens(Canonical(x))
  {
  }

  lemma SortKeepsElements(s: seq<Text>)
    ensures |Sort(s)| == |s|
    ensures forall i :: 0 <= i < |s| ==> Sort(s)[i] in s
  {
    SortSorts(s);
    assert |Sort(s)| == |multiset(Sort(s))| == |multiset(s)|;
    forall i | 0 <= i < |Sort(s)| ensures Sort(s)[i] in s {
      assert Sort(s)[i] in multiset(Sort(s));
    }
  }

  lemma PartsOpen(items: seq<Json>)
    ensures forall i :: 0 <= i < |ArrayParts(items)| ==> Opens(ArrayParts(items)[i])
  {
    SortKeepsElements(PrintItems(items));
    forall i | 0 <= i < |ArrayParts(items)| ensures Opens(ArrayParts(items)[i]) {
      var k :| 0 <= k < |items| && PrintItems(items)[k] == ArrayParts(items)[i];
      CanonicalFirst(items[k]);
    }
  }

  lemma FindSome(fields: seq<Field>, key: Text)
    requires key in Keys(fields)
    ensures exists k :: 0 <= k < |fields| && fields[k].key == key && Find(PrintFields(fields), key) == Canonical(fields[k].value)
  {
    var printed := PrintFields(fields);
    if printed[0].key != key {
      var j :| 0 <= j < |fields| && Keys(fields)[j] == key;
      assert Keys(fields[1..])[j - 1] == key;
      FindSome(fields[1..], key);
      assert PrintFields(fields[1..]) == printed[1..];
      var k :| 0 <= k < |fields[1..]| && fields[1..][k].key == key && Find(PrintFields(fields[1..]), key) == Canonical(fields[1..][k].value);
      assert fields[k + 1] == fields[1..][k];
    }
  }

  lemma EntriesOpen(fields: seq<Field>)
    ensures forall i :: 0 <= i < |ObjectParts(fields)| ==> Opens(ObjectParts(fields)[i])
  {
    forall i | 0 <= i < |ObjectParts(fields)| ensures Opens(ObjectParts(fields)[i]) {
      assert ObjectParts(fields)[i][0] == QuoteMark;
    }
  }

  /** What is printed before a delimiter or the end decides where it stops. */
  lemma {:induction false} CanonicalSeparable(x: Json, y: Json)
    ensures Separable(Canonical(x), Canonical(y))
    decreases x
  {
    CanonicalFirst(x);
    CanonicalFirst(y);
    if FirstUnit(x) != FirstUnit(y) {
      FirstsDiffer(Canonical(x), Canonical(y));
    } else {
      match x
      case Number(n) => NumeralsSeparable(n, y.n);
      case Str(t) => QuotesSeparable(t, y.t);
      case Arr(items) => ArraysSeparable(items, y.items);
      case Obj(fields) => ObjectsSeparable(fields, y.fields);
      case _ =>
    }
  }

  lemma FirstsDiffer(t: Text, u: Text)
    requires t != [] && u != [] && t[0] != u[0]
    ensures Separable(t, u)
  {
    forall r, s ensures t + r != u + s {
      assert (t + r)[0] == t[0] && (u + s)[0] == u[0];
    }
  }

  lemma {:induction false} ArrayPartsSeparable(items: seq<Json>, others: seq<Json>)
    ensures AllSeparable(ArrayParts(items), ArrayParts(others))
    decreases items, 0
  {
    var parts, parts' := ArrayParts(items), ArrayParts(others);
    PartsOpen(items);
    PartsOpen(others);
    SortKeepsElements(PrintItems(items));
    SortKeepsElements(PrintItems(others));
    forall i, j | 0 <= i < |parts| && 0 <= j < |parts'| ensures Separable(parts[i], parts'[j]) {
      var k :| 0 <= k < |items| && PrintItems(items)[k] == parts[i];
      var l :| 0 <= l < |others| && PrintItems(others)[l] == parts'[j];
      CanonicalSeparable(items[k], others[l]);
    }
  }

  lemma BracketedSeparable(parts: seq<Text>, others: seq<Text>, open: Unit, close: Unit)
    requires AllSeparable(parts, others) && close in {CloseBracket, CloseBrace}
    ensures Separable([open] + Join(parts) + [close], [open] + Join(others) + [close])
  {
    hide Join, AllSeparable;
    var t, u := [open] + Join(parts) + [close], [open] + Join(others) + [close];
    forall r, s | Delimited(r) && Delimited(s) && t + r == u + s ensures t == u {
      assert (t + r)[1..] == Join(parts) + [close] + r;
      assert (u + s)[1..] == Join(others) + [close] + s;
      JoinUnique(parts, others, close, r, s);
    }
  }

  lemma {:induction false} ArraysSeparable(items: seq<Json>, others: seq<Json>)
    ensures Separable(Canonical(Arr(items)), Canonical(Arr(others)))
    decreases items, 1
  {
    ArrayPartsSeparable(items, others);
    CanonicalArr(items);
    CanonicalArr(others);
    BracketedSeparable(ArrayParts(items), ArrayParts(others), OpenBracket, CloseBracket);
  }

  lemma {:induction false} ObjectPartsSeparable(fields: seq<Field>, others: seq<Field>)
    ensures AllSeparable(ObjectParts(fields), ObjectParts(others))
    decreases fields, 0
  {
    var keys, keys' := Sort(Keys(fields)), Sort(Keys(others));
    EntriesOpen(fields);
    EntriesOpen(others);
    SortKeepsElements(Keys(fields));
    SortKeepsElements(Keys(others));
    forall i, j | 0 <= i < |keys| && 0 <= j < |keys'| ensures Separable(ObjectParts(fields)[i], ObjectParts(others)[j]) {
      FindSome(fields, keys[i]);
      FindSome(others, keys'[j]);
      var k :| 0 <= k < |fields| && Find(PrintFields(fields), keys[i]) == Canonical(fields[k].value);
      var l :| 0 <= l < |others| && Find(PrintFields(others), keys'[j]) == Canonical(others[l].value);
      CanonicalSeparable(fields[k].value, others[l].value);
      EntriesSeparable(keys[i], Canonical(fields[k].value), keys'[j], Canonical(others[l].value));
    }
  }

  lemma {:induction false} ObjectsSeparable(fields: seq<Field>, others: seq<Field>)
    ensures Separable(Canonical(Obj(fields)), Canonical(Obj(others)))
    decreases fields, 1
  {
    ObjectPartsSeparable(fields, others);
    CanonicalObj(fields);
    CanonicalObj(others);
    BracketedSeparable(ObjectParts(fields), ObjectParts(others), OpenBrace, CloseBrace);
  }
}
