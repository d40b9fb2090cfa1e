/** The canonical serialisation that is hashed, and a parser that undoes it. */
module CanonicalJson {
  import opened Text
  import opened Digits
  import KeyOrder

  datatype Json =
    | Null
    | Bool(b: bool)
    | Num(n: int)
    | Str(s: string)
    | Arr(items: seq<Json>)
    | Obj(fields: seq<Field>)

  /** One own property; an object lists its properties in insertion order. */
  datatype Field = Field(key: string, value: Json)

  function FieldKey(f: Field): string { f.key }

  // ---- the printer --------------------------------------------------------

  function IntText(n: int): string {
    if n < 0 then "-" + NatText(-n) else NatText(n)
  }

  function HexDigit(d: nat): (c: char)
    requires d < 16
  {
    if d < 10 then DigitChar(d) else (d - 10 + 'a' as int) as char
  }

  /** One character inside a string literal, escaped as `JSON.stringify` escapes it. */
  function Escape(c: char): string {
    if c == '\"' then "\\\""
    else if c == '\\' then "\\\\"
    else if c == 8 as char then "\\b"
    else if c == 12 as char then "\\f"
    else if c == '\n' then "\\n"
    else if c == '\r' then "\\r"
    else if c == '\t' then "\\t"
    else if c < ' ' then "\\u00" + [HexDigit(c as int / 16), HexDigit(c as int % 16)]
    else [c]
  }

  function EscapeAll(s: string): string {
    if s == [] then [] else Escape(s[0]) + EscapeAll(s[1..])
  }

  function Quote(s: string): string {
    "\"" + EscapeAll(s) + "\""
  }

  function Join(parts: seq<string>): string {
    if parts == [] then [] else if |parts| == 1 then parts[0] else parts[0] + "," + Join(parts[1..])
  }

  /** The text of a value whose objects list their keys in the order to be printed. */
  function Print(v: Json): string {
    match v
    case Null => "null"
    case Bool(b) => if b then "true" else "false"
    case Num(n) => IntText(n)
    case Str(s) => Quote(s)
    case Arr(items) => "[" + Join(ItemTexts(items)) + "]"
    case Obj(fields) => "{" + Join(FieldTexts(fields)) + "}"
  }

  function ItemTexts(items: seq<Json>): (parts: seq<string>)
    ensures |parts| == |items|
  {
    if items == [] then [] else [Print(items[0])] + ItemTexts(items[1..])
  }

  function FieldText(f: Field): string {
    Quote(f.key) + ":" + Print(f.value)
  }

  function FieldTexts(fields: seq<Field>): (parts: seq<string>)
    ensures |parts| == |fields|
  {
    if fields == [] then [] else [FieldText(fields[0])] + FieldTexts(fields[1..])
  }

  /** The same value with every object's keys in the order they are printed. */
  function Normal(v: Json): Json {
    match v
    case Arr(items) => Arr(NormalItems(items))
    case Obj(fields) => Obj(KeyOrder.Sort(FieldKey, NormalFields(fields)))
    case _ => v
  }

  function NormalItems(items: seq<Json>): (r: seq<Json>)
    ensures |r| == |items|
  {
    if items == [] then [] else [Normal(items[0])] + NormalItems(items[1..])
  }

  function NormalFields(fields: seq<Field>): (r: seq<Field>)
    ensures |r| == |fields|
  {
    if fields == [] then [] else [Field(fields[0].key, Normal(fields[0].value))] + NormalFields(fields[1..])
  }

  function Canonical(v: Json): string {
    Print(Normal(v))
  }

  // ---- the parser ---------------------------------------------------------

  datatype Parsed<+T> = Failed | Parsed(value: T, rest: string)

  function HexValue(c: char): Option<nat> {
    if IsDigit(c) then Some(DigitValue(c))
    else if 'a' <= c <= 'f' then Some(c as int - 'a' as int + 10)
    else None
  }

  /** One character of a string literal, escaped or not. */
  function ParseChar(s: string): (r: Parsed<char>)
    ensures r.Parsed? ==> |r.rest| < |s|
  {
    if s == [] || s[0] == '\"' || s[0] < ' ' then Failed
    else if s[0] != '\\' then Parsed(s[0], s[1..])
    else if |s| < 2 then Failed
    else match s[1] {
      case '\"' => Parsed('\"', s[2..])
      case '\\' => Parsed('\\', s[2..])
      case 'b' => Parsed(8 as char, s[2..])
      case 'f' => Parsed(12 as char, s[2..])
      case 'n' => Parsed('\n', s[2..])
      case 'r' => Parsed('\r', s[2..])
      case 't' => Parsed('\t', s[2..])
      case 'u' =>
        if |s| < 6 || s[2] != '0' || s[3] != '0' then Failed
        else
          var hi, lo := HexValue(s[4]), HexValue(s[5]);
          if hi.None? || lo.None? then Failed else Parsed((16 * hi.value + lo.value) as char, s[6..])
      case _ => Failed
    }
  }

  /** The characters of a string literal up to and including the closing quote. */
  function ParseChars(s: string): (r: Parsed<string>)
    ensures r.Parsed? ==> |r.rest| < |s|
  {
    if s != [] && s[0] == '\"' then Parsed([], s[1..])
    else match ParseChar(s) {
      case Failed => Failed
      case Parsed(c, rest) =>
        match ParseChars(rest) {
          case Failed => Failed
          case Parsed(cs, rest') => Parsed([c] + cs, rest')
        }
    }
  }

  function ParseString(s: string): (r: Parsed<string>)
    ensures r.Parsed? ==> |r.rest| < |s|
  {
    if s != [] && s[0] == '\"' then ParseChars(s[1..]) else Failed
  }

  function ParseInt(s: string): (r: Parsed<Json>)
    ensures r.Parsed? ==> |r.rest| < |s|
  {
    var negative := s != [] && s[0] == '-';
    var t := if negative then s[1..] else s;
    var k := DigitRun(t);
    if k == 0 then Failed
    else
      var n: int := Value(t[..k]);
      Parsed(Num(if negative then -n else n), t[k..])
  }

  function ParseValue(s: string): (r: Parsed<Json>)
    ensures r.Parsed? ==> |r.rest| < |s|
    decreases |s|, 0
  {
    if s == [] then Failed
    else if s[0] == 'n' then if "null" <= s then Parsed(Null, s[4..]) else Failed
    else if s[0] == 't' then if "true" <= s then Parsed(Bool(true), s[4..]) else Failed
    else if s[0] == 'f' then if "false" <= s then Parsed(Bool(false), s[5..]) else Failed
    else if s[0] == '\"' then
      match ParseString(s) {
        case Failed => Failed
        case Parsed(cs, rest) => Parsed(Str(cs), rest)
      }
    else if s[0] == '[' then
      if |s| >= 2 && s[1] == ']' then Parsed(Arr([]), s[2..])
      else match ParseItems(s[1..]) {
        case Failed => Failed
        case Parsed(items, rest) => Parsed(Arr(items), rest)
      }
    else if s[0] == '{' then
      if |s| >= 2 && s[1] == '}' then Parsed(Obj([]), s[2..])
      else match ParseFields(s[1..]) {
        case Failed => Failed
        case Parsed(fields, rest) => Parsed(Obj(fields), rest)
      }
    else ParseInt(s)
  }

  /** At least one value, then either a comma and more values or the closing bracket. */
  function ParseItems(s: string): (r: Parsed<seq<Json>>)
    ensures r.Parsed? ==> |r.rest| < |s|
    decreases |s|, 2
  {
    match ParseValue(s)
    case Failed => Failed
    case Parsed(v, rest) =>
      if rest == [] then Failed
      else if rest[0] == ']' then Parsed([v], rest[1..])
      else if rest[0] == ',' then
        match ParseItems(rest[1..]) {
          case Failed => Failed
          case Parsed(vs, rest') => Parsed([v] + vs, rest')
        }
      else Failed
  }

  function ParseField(s: string): (r: Parsed<Field>)
    ensures r.Parsed? ==> |r.rest| < |s|
    decreases |s|, 1
  {
    match ParseString(s)
    case Failed => Failed
    case Parsed(k, rest) =>
      if rest == [] || rest[0] != ':' then Failed
      else match ParseValue(rest[1..]) {
        case Failed => Failed
        case Parsed(v, rest') => Parsed(Field(k, v), rest')
      }
  }

  function ParseFields(s: string): (r: Parsed<seq<Field>>)
    ensures r.Parsed? ==> |r.rest| < |s|
    decreases |s|, 2
  {
    match ParseField(s)
    case Failed => Failed
    case Parsed(f, rest) =>
      if rest == [] then Failed
      else if rest[0] == '}' then Parsed([f], rest[1..])
      else if rest[0] == ',' then
        match ParseFields(rest[1..]) {
          case Failed => Failed
          case Parsed(fs, rest') => Parsed([f] + fs, rest')
        }
      else Failed
  }

  // ---- the printer's spellings --------------------------------------------

  lemma EscapeIsShortest(t: string)
    requires ParseChar(t).Parsed?
    ensures var r := ParseChar(t);
            |Escape(r.value) + r.rest| < |t| || Escape(r.value) + r.rest == t
  {
    var r := ParseChar(t);
    assert t[..|t| - |r.rest|] + r.rest == t;
  }

  lemma {:induction false} EscapesAreShortest(t: string)
    requires ParseChars(t).Parsed?
    ensures var r := ParseChars(t);
            |EscapeAll(r.value) + "\"" + r.rest| < |t| || EscapeAll(r.value) + "\"" + r.rest == t
    decreases |t|
  {
    hide ParseChar, Escape;
    if t[0] == '\"' {
      assert t == "\"" + t[1..];
    } else {
      var first := ParseChar(t);
      EscapeIsShortest(t);
      EscapesAreShortest(first.rest);
      var r := ParseChars(t);
      assert r.value[1..] == ParseChars(first.rest).value;
      assert EscapeAll(r.value) + "\"" + r.rest == Escape(first.value) + (EscapeAll(r.value[1..]) + "\"" + r.rest);
    }
  }

  /** Of all the spellings that the parser reads as a string, the printer's is the one shortest. */
  lemma QuoteIsShortest(t: string)
    requires ParseString(t).Parsed? && ParseString(t).rest == ""
    ensures |Quote(ParseString(t).value)| < |t| || Quote(ParseString(t).value) == t
  {
    hide ParseChars, EscapeAll;
    EscapesAreShortest(t[1..]);
    assert t == "\"" + t[1..];
  }

  // ---- round trip ---------------------------------------------------------

  lemma EscapeParses(c: char, rest: string)
    ensures ParseChar(Escape(c) + rest) == Parsed(c, rest)
    ensures Escape(c) != [] && Escape(c)[0] != '\"'
  {
    var e := Escape(c);
    assert (e + rest)[|e|..] == rest;
    if c < ' ' && |e| == 6 {
      var n := c as int;
      assert (e + rest)[4] == HexDigit(n / 16) && (e + rest)[5] == HexDigit(n % 16);
      assert 16 * (n / 16) + n % 16 == n;
    }
  }

  lemma CharThenChars(s: string, c: char, more: string, cs: string, rest: string)
    requires s != [] && s[0] != '\"' && ParseChar(s) == Parsed(c, more) && ParseChars(more) == Parsed(cs, rest)
    ensures ParseChars(s) == Parsed([c] + cs, rest)
  {
    hide ParseChar;
  }

  lemma {:induction false} EscapeAllParses(s: string, rest: string)
    ensures ParseChars(EscapeAll(s) + "\"" + rest) == Parsed(s, rest)
  {
    hide ParseChar, Escape;
    if s == [] {
      assert EscapeAll(s) + "\"" + rest == "\"" + rest;
    } else {
      var tail := EscapeAll(s[1..]) + "\"" + rest;
      assert EscapeAll(s) + "\"" + rest == Escape(s[0]) + tail;
      EscapeParses(s[0], tail);
      EscapeAllParses(s[1..], rest);
      hide ParseChars;
      assert (Escape(s[0]) + tail)[0] == Escape(s[0])[0];
      CharThenChars(Escape(s[0]) + tail, s[0], tail, s[1..], rest);
      assert s == [s[0]] + s[1..];
    }
  }

  lemma QuoteParses(s: string, rest: string)
    ensures ParseString(Quote(s) + rest) == Parsed(s, rest)
  {
    hide ParseChars, EscapeAll;
    EscapeAllParses(s, rest);
    assert (Quote(s) + rest)[1..] == EscapeAll(s) + "\"" + rest;
  }

  /** What may follow a printed value: nothing, or something that cannot extend a number. */
  predicate Delimited(rest: string) {
    rest == [] || !IsDigit(rest[0])
  }

  lemma IntTextParses(n: int, rest: string)
    requires Delimited(rest)
    ensures ParseInt(IntText(n) + rest) == Parsed(Num(n), rest)
    ensures IsDigit(IntText(n)[0]) || IntText(n)[0] == '-'
  {
    hide Value, DigitRun, NatText;
    var d := NatText(if n < 0 then -n else n);
    var s := IntText(n) + rest;
    NatTextValue(if n < 0 then -n else n);
    DigitRunOfPrefix(d, rest);
    assert (d + rest)[..|d|] == d && (d + rest)[|d|..] == rest;
    if n < 0 {
      assert s[1..] == d + rest;
    } else {
      assert s == d + rest;
      assert IsDigit(d[0]);
    }
  }

  lemma LiteralParses(v: Json, rest: string)
    requires v.Null? || v.Bool?
    ensures ParseValue(Print(v) + rest) == Parsed(v, rest)
  {
    var t := Print(v);
    assert t <= t + rest && (t + rest)[|t|..] == rest;
    assert (t + rest)[0] == t[0];
  }

  lemma BracketParses(s: string, items: seq<Json>, rest: string)
    requires s != [] && s[0] == '['
    requires s[1..] != [] && s[1] != ']' && ParseItems(s[1..]) == Parsed(items, rest)
    ensures ParseValue(s) == Parsed(Arr(items), rest)
  {}

  lemma BraceParses(s: string, fields: seq<Field>, rest: string)
    requires s != [] && s[0] == '{'
    requires s[1..] != [] && s[1] != '}' && ParseFields(s[1..]) == Parsed(fields, rest)
    ensures ParseValue(s) == Parsed(Obj(fields), rest)
  {}

  lemma {:induction false} PrintParses(v: Json, rest: string)
    requires Delimited(rest)
    ensures ParseValue(Print(v) + rest) == Parsed(v, rest)
    ensures Print(v) != [] && Print(v)[0] != ']'
    decreases v, 3
  {
    match v
    case Null => LiteralParses(v, rest);
    case Bool(b) => LiteralParses(v, rest);
    case Num(n) => NumParses(n, rest);
    case Str(cs) => StrParses(cs, rest);
    case Arr(items) => ArrParses(items, rest);
    case Obj(fields) => ObjParses(fields, rest);
  }

  lemma NumParses(n: int, rest: string)
    requires Delimited(rest)
    ensures ParseValue(Print(Num(n)) + rest) == Parsed(Num(n), rest)
    ensures IsDigit(Print(Num(n))[0]) || Print(Num(n))[0] == '-'
  {
    IntTextParses(n, rest);
    assert (IntText(n) + rest)[0] == IntText(n)[0];
  }

  lemma StrParses(cs: string, rest: string)
    ensures ParseValue(Print(Str(cs)) + rest) == Parsed(Str(cs), rest)
  {
    QuoteParses(cs, rest);
    assert (Quote(cs) + rest)[0] == '\"';
  }

  lemma {:induction false} ArrParses(items: seq<Json>, rest: string)
    ensures ParseValue(Print(Arr(items)) + rest) == Parsed(Arr(items), rest)
    ensures Print(Arr(items)) != [] && Print(Arr(items))[0] == '['
    decreases items, 2
  {
    var s := Print(Arr(items)) + rest;
    if items == [] {
      assert s == "[]" + rest && s[2..] == rest;
    } else {
      ItemTextsParse(items, rest);
      var body := Join(ItemTexts(items));
      assert s == "[" + (body + "]" + rest) && s[1..] == body + "]" + rest;
      assert s[1] == body[0];
      BracketParses(s, items, rest);
    }
  }

  lemma {:induction false} ObjParses(fields: seq<Field>, rest: string)
    ensures ParseValue(Print(Obj(fields)) + rest) == Parsed(Obj(fields), rest)
    ensures Print(Obj(fields)) != [] && Print(Obj(fields))[0] == '{'
    decreases fields, 3
  {
    var s := Print(Obj(fields)) + rest;
    if fields == [] {
      assert s == "{}" + rest && s[2..] == rest;
    } else {
      FieldTextsParse(fields, rest);
      var body := Join(FieldTexts(fields));
      assert s == "{" + (body + "}" + rest) && s[1..] == body + "}" + rest;
      assert s[1] == body[0];
      BraceParses(s, fields, rest);
    }
  }

  lemma LastItemParses(s: string, v: Json, rest: string)
    requires ParseValue(s) == Parsed(v, "]" + rest)
    ensures ParseItems(s) == Parsed([v], rest)
  {
    assert ("]" + rest)[1..] == rest;
  }

  lemma MoreItemsParse(s: string, v: Json, more: string, vs: seq<Json>, rest: string)
    requires ParseValue(s) == Parsed(v, "," + more) && ParseItems(more) == Parsed(vs, rest)
    ensures ParseItems(s) == Parsed([v] + vs, rest)
  {
    assert ("," + more)[1..] == more;
  }

  lemma Regroup(t: string, tail: string, close: string, rest: string)
    ensures t + "," + tail + close + rest == t + ("," + (tail + close + rest))
    ensures t + close + rest == t + (close + rest)
  {}

  lemma JoinItems(items: seq<Json>)
    requires items != []
    ensures Join(ItemTexts(items)) ==
            if |items| == 1 then Print(items[0]) else Print(items[0]) + "," + Join(ItemTexts(items[1..]))
  {
    assert ItemTexts(items)[1..] == ItemTexts(items[1..]);
  }

  lemma {:induction false} ItemTextsParse(items: seq<Json>, rest: string)
    requires items != []
    ensures ParseItems(Join(ItemTexts(items)) + "]" + rest) == Parsed(items, rest)
    ensures Join(ItemTexts(items)) != [] && Join(ItemTexts(items))[0] != ']'
    decreases items, 1
  {
    var v, t := items[0], Print(items[0]);
    JoinItems(items);
    if |items| == 1 {
      PrintParses(v, "]" + rest);
      Regroup(t, "", "]", rest);
      LastItemParses(t + ("]" + rest), v, rest);
      assert items == [v];
    } else {
      var tail := Join(ItemTexts(items[1..]));
      var more := tail + "]" + rest;
      PrintParses(v, "," + more);
      ItemTextsParse(items[1..], rest);
      Regroup(t, tail, "]", rest);
      MoreItemsParse(t + ("," + more), v, more, items[1..], rest);
      assert items == [v] + items[1..];
    }
  }

  lemma {:induction false} FieldTextParses(f: Field, rest: string)
    requires Delimited(rest)
    ensures ParseField(FieldText(f) + rest) == Parsed(f, rest)
    ensures FieldText(f) != [] && FieldText(f)[0] == '\"'
    decreases f, 1
  {
    hide Print, ParseChars, EscapeAll, ParseValue;
    var value := Print(f.value) + rest;
    assert FieldText(f) + rest == Quote(f.key) + (":" + value);
    QuoteParses(f.key, ":" + value);
    assert (":" + value)[1..] == value;
    PrintParses(f.value, rest);
  }

  lemma LastFieldParses(s: string, f: Field, rest: string)
    requires ParseField(s) == Parsed(f, "}" + rest)
    ensures ParseFields(s) == Parsed([f], rest)
  {
    assert ("}" + rest)[1..] == rest;
  }

  lemma MoreFieldsParse(s: string, f: Field, more: string, fs: seq<Field>, rest: string)
    requires ParseField(s) == Parsed(f, "," + more) && ParseFields(more) == Parsed(fs, rest)
    ensures ParseFields(s) == Parsed([f] + fs, rest)
  {
    assert ("," + more)[1..] == more;
  }

  lemma JoinFields(fields: seq<Field>)
    requires fields != []
    ensures Join(FieldTexts(fields)) ==
            if |fields| == 1 then FieldText(fields[0]) else FieldText(fields[0]) + "," + Join(FieldTexts(fields[1..]))
  {
    assert FieldTexts(fields)[1..] == FieldTexts(fields[1..]);
  }

  lemma {:induction false} FieldTextsParse(fields: seq<Field>, rest: string)
    requires fields != []
    ensures ParseFields(Join(FieldTexts(fields)) + "}" + rest) == Parsed(fields, rest)
    ensures Join(FieldTexts(fields)) != [] && Join(FieldTexts(fields))[0] != '}'
    decreases fields, 2
  {
    var f, t := fields[0], FieldText(fields[0]);
    JoinFields(fields);
    if |fields| == 1 {
      FieldTextParses(f, "}" + rest);
      Regroup(t, "", "}", rest);
      LastFieldParses(t + ("}" + rest), f, rest);
      assert fields == [f];
    } else {
      var tail := Join(FieldTexts(fields[1..]));
      var more := tail + "}" + rest;
      FieldTextParses(f, "," + more);
      FieldTextsParse(fields[1..], rest);
      Regroup(t, tail, "}", rest);
      MoreFieldsParse(t + ("," + more), f, more, fields[1..], rest);
      assert fields == [f] + fields[1..];
    }
  }

  /** The canonical text parses back to the value, keys in canonical order, with nothing left over. */
  lemma CanonicalRoundTrip(v: Json)
    ensures ParseValue(Canonical(v)) == Parsed(Normal(v), "")
  {
    PrintParses(Normal(v), "");
    assert Print(Normal(v)) + "" == Print(Normal(v));
  }

  /** Two values share their canonical text exactly when they differ at most in key order. */
  lemma CanonicalInjective(v: Json, w: Json)
    ensures Canonical(v) == Canonical(w) <==> Normal(v) == Normal(w)
  {
    CanonicalRoundTrip(v);
    CanonicalRoundTrip(w);
  }

  // ---- an object is its key-value map -------------------------------------

  function KeyValues(fields: seq<Field>): map<string, Json> {
    if fields == [] then map[] else KeyValues(fields[1..])[fields[0].key := Normal(fields[0].value)]
  }

  lemma {:induction false} NormalFieldsAt(fields: seq<Field>, i: nat)
    requires i < |fields|
    ensures NormalFields(fields)[i] == Field(fields[i].key, Normal(fields[i].value))
  {
    if i > 0 { NormalFieldsAt(fields[1..], i - 1); }
  }

  lemma {:induction false} KeyValuesMember(fields: seq<Field>, f: Field)
    requires KeyOrder.DistinctKeys(FieldKey, fields)
    ensures f in NormalFields(fields) <==> f.key in KeyValues(fields) && KeyValues(fields)[f.key] == f.value
    ensures f.key in KeyValues(fields) <==> exists i :: 0 <= i < |fields| && fields[i].key == f.key
  {
    if fields != [] {
      var t := fields[1..];
      forall i, j | 0 <= i < j < |t|
        ensures FieldKey(t[i]) != FieldKey(t[j])
      {
        assert FieldKey(fields[i + 1]) != FieldKey(fields[j + 1]);
      }
      KeyValuesMember(t, f);
      assert fields == [fields[0]] + t;
      if f.key == fields[0].key {
        assert fields[0].key == f.key;
        if f in NormalFields(t) {
          assert false;
        }
      } else if i :| 0 <= i < |fields| && fields[i].key == f.key {
        assert t[i - 1].key == f.key;
      } else {
        assert forall i :: 0 <= i < |t| ==> t[i] == fields[i + 1];
      }
    }
  }

  lemma NormalFieldsDistinct(fields: seq<Field>)
    requires KeyOrder.DistinctKeys(FieldKey, fields)
    ensures KeyOrder.DistinctKeys(FieldKey, NormalFields(fields))
  {
    forall i, j | 0 <= i < j < |fields|
      ensures FieldKey(NormalFields(fields)[i]) != FieldKey(NormalFields(fields)[j])
    {
      NormalFieldsAt(fields, i);
      NormalFieldsAt(fields, j);
      assert FieldKey(fields[i]) != FieldKey(fields[j]);
    }
  }

  /** What an object prints depends on its key-value map, and on nothing else. */
  lemma ObjectPrintsItsMap(fs: seq<Field>, gs: seq<Field>)
    requires KeyOrder.DistinctKeys(FieldKey, fs) && KeyOrder.DistinctKeys(FieldKey, gs)
    ensures Canonical(Obj(fs)) == Canonical(Obj(gs)) <==> KeyValues(fs) == KeyValues(gs)
  {
    var nf, ng := NormalFields(fs), NormalFields(gs);
    CanonicalInjective(Obj(fs), Obj(gs));
    NormalFieldsDistinct(fs);
    NormalFieldsDistinct(gs);
    KeyOrder.SortMultiset(FieldKey, nf);
    KeyOrder.SortMultiset(FieldKey, ng);
    if KeyValues(fs) == KeyValues(gs) {
      forall f
        ensures f in nf <==> f in ng
      {
        KeyValuesMember(fs, f);
        KeyValuesMember(gs, f);
      }
      KeyOrder.RearrangedSortsAlike(FieldKey, nf, ng);
    } else if Normal(Obj(fs)) == Normal(Obj(gs)) {
      assert multiset(nf) == multiset(ng);
      MapsFromMembers(fs, gs);
    }
  }

  lemma MapsFromMembers(fs: seq<Field>, gs: seq<Field>)
    requires KeyOrder.DistinctKeys(FieldKey, fs) && KeyOrder.DistinctKeys(FieldKey, gs)
    requires multiset(NormalFields(fs)) == multiset(NormalFields(gs))
    ensures KeyValues(fs) == KeyValues(gs)
  {
    forall k
      ensures k in KeyValues(fs) <==> k in KeyValues(gs)
      ensures k in KeyValues(fs) ==> KeyValues(fs)[k] == KeyValues(gs)[k]
    {
      MapsAgreeAt(fs, gs, k);
      MapsAgreeAt(gs, fs, k);
    }
  }

  lemma MapsAgreeAt(fs: seq<Field>, gs: seq<Field>, k: string)
    requires KeyOrder.DistinctKeys(FieldKey, fs) && KeyOrder.DistinctKeys(FieldKey, gs)
    requires multiset(NormalFields(fs)) == multiset(NormalFields(gs))
    ensures k in KeyValues(fs) ==> k in KeyValues(gs) && KeyValues(fs)[k] == KeyValues(gs)[k]
  {
    if k in KeyValues(fs) {
      var f := Field(k, KeyValues(fs)[k]);
      KeyValuesMember(fs, f);
      assert f in multiset(NormalFields(fs));
      KeyValuesMember(gs, f);
    }
  }

  /** The object has this key, once, with this value. */
  predicate Has(v: Json, key: string, x: Json) {
    v.Obj? && Field(key, x) in v.fields && forall f :: f in v.fields && f.key == key ==> f.value == x
  }

  lemma SortKeepsMembers(fields: seq<Field>)
    ensures |KeyOrder.Sort(FieldKey, fields)| == |fields|
    ensures forall f :: f in KeyOrder.Sort(FieldKey, fields) <==> f in fields
  {
    var sorted := KeyOrder.Sort(FieldKey, fields);
    KeyOrder.SortMultiset(FieldKey, fields);
    assert |sorted| == |multiset(sorted)| == |multiset(fields)| == |fields|;
    assert forall f :: f in sorted <==> f in multiset(sorted);
    assert forall f :: f in fields <==> f in multiset(fields);
  }

  /** A printed object has every key it was given, with the normal form of its value, and no others. */
  lemma NormalHas(fields: seq<Field>, i: nat)
    requires KeyOrder.DistinctKeys(FieldKey, fields) && i < |fields|
    ensures Has(Normal(Obj(fields)), fields[i].key, Normal(fields[i].value))
    ensures Normal(Obj(fields)).Obj? && |Normal(Obj(fields)).fields| == |fields|
  {
    hide KeyOrder.Sort, NormalFields;
    var nf := NormalFields(fields);
    NormalFieldsAt(fields, i);
    NormalFieldsDistinct(fields);
    SortKeepsMembers(nf);
    forall f | f in nf && f.key == fields[i].key
      ensures f.value == nf[i].value
    {
      var j :| 0 <= j < |nf| && nf[j] == f;
      assert FieldKey(nf[i]) == FieldKey(nf[j]);
    }
  }

  // ---- the implementation -------------------------------------------------

  /** The printer as written: sort an object's keys, print the parts in a loop, join them. */
  method Serialise(v: Json) returns (text: string)
    ensures text == Canonical(v)
    decreases v
  {
    hide Canonical, ItemTexts, FieldTexts, NormalItems, NormalFields, Join, KeyOrder.Sort, Quote, IntText;
    CanonicalCases(v);
    match v {
      case Null => text := "null";
      case Bool(b) => text := if b then "true" else "false";
      case Num(n) => text := IntText(n);
      case Str(s) => text := Quote(s);
      case Arr(items) =>
        var parts: seq<string> := [];
        CanonicalNothing(items, KeyOrder.Sort(FieldKey, []));
        for i := 0 to |items|
          invariant parts == CanonicalItems(items[..i])
        {
          var part := Serialise(items[i]);
          parts := parts + [part];
          CanonicalItemsGrow(items, i);
        }
        assert items[..|items|] == items;
        text := "[" + Join(parts) + "]";
      case Obj(fields) =>
        var sorted := KeyOrder.Sort(FieldKey, fields);
        KeyOrder.SortMultiset(FieldKey, fields);
        var parts: seq<string> := [];
        CanonicalNothing([], sorted);
        for i := 0 to |sorted|
          invariant parts == CanonicalParts(sorted[..i])
        {
          var f := sorted[i];
          assert f in multiset(sorted) && f in fields;
          var part := Serialise(f.value);
          parts := parts + [Quote(f.key) + ":" + part];
          CanonicalPartsGrow(sorted, i);
        }
        assert sorted[..|sorted|] == sorted;
        text := "{" + Join(parts) + "}";
    }
  }

  /** The canonical texts of an array's items. */
  function CanonicalItems(items: seq<Json>): seq<string> {
    ItemTexts(NormalItems(items))
  }

  /** The canonical texts of properties, in the order given. */
  function CanonicalParts(fields: seq<Field>): seq<string> {
    FieldTexts(NormalFields(fields))
  }

  lemma CanonicalCases(v: Json)
    ensures v.Arr? ==> Canonical(v) == "[" + Join(CanonicalItems(v.items)) + "]"
    ensures v.Obj? ==> Canonical(v) == "{" + Join(CanonicalParts(KeyOrder.Sort(FieldKey, v.fields))) + "}"
    ensures v.Null? ==> Canonical(v) == "null"
    ensures v.Bool? ==> Canonical(v) == if v.b then "true" else "false"
    ensures v.Num? ==> Canonical(v) == IntText(v.n)
    ensures v.Str? ==> Canonical(v) == Quote(v.s)
  {
    hide ItemTexts, FieldTexts, NormalItems, NormalFields, Join, Quote, IntText, KeyOrder.Sort;
    if v.Obj? { SortNormalCommute(v.fields); }
  }

  lemma CanonicalNothing(items: seq<Json>, fields: seq<Field>)
    ensures CanonicalItems(items[..0]) == [] && CanonicalParts(fields[..0]) == []
  {}

  lemma CanonicalItemsGrow(items: seq<Json>, i: nat)
    requires i < |items|
    ensures CanonicalItems(items[..i + 1]) == CanonicalItems(items[..i]) + [Canonical(items[i])]
  {
    hide ItemTexts, NormalItems;
    assert items[..i + 1] == items[..i] + [items[i]];
    NormalItemsSnoc(items[..i], items[i]);
    ItemTextsSnoc(NormalItems(items[..i]), Normal(items[i]));
  }

  lemma CanonicalPartsGrow(fields: seq<Field>, i: nat)
    requires i < |fields|
    ensures CanonicalParts(fields[..i + 1]) == CanonicalParts(fields[..i]) + [Quote(fields[i].key) + ":" + Canonical(fields[i].value)]
  {
    hide FieldTexts, NormalFields, Quote, Normal;
    assert fields[..i + 1] == fields[..i] + [fields[i]];
    NormalFieldsSnoc(fields[..i], fields[i]);
    FieldTextsSnoc(NormalFields(fields[..i]), Field(fields[i].key, Normal(fields[i].value)));
  }

  lemma {:induction false} NormalItemsSnoc(items: seq<Json>, v: Json)
    ensures NormalItems(items + [v]) == NormalItems(items) + [Normal(v)]
  {
    if items != [] {
      NormalItemsSnoc(items[1..], v);
      assert (items + [v])[1..] == items[1..] + [v];
    }
  }

  lemma {:induction false} ItemTextsSnoc(items: seq<Json>, v: Json)
    ensures ItemTexts(items + [v]) == ItemTexts(items) + [Print(v)]
  {
    if items != [] {
      ItemTextsSnoc(items[1..], v);
      assert (items + [v])[1..] == items[1..] + [v];
    }
  }

  lemma {:induction false} NormalFieldsSnoc(fields: seq<Field>, f: Field)
    ensures NormalFields(fields + [f]) == NormalFields(fields) + [Field(f.key, Normal(f.value))]
  {
    if fields != [] {
      NormalFieldsSnoc(fields[1..], f);
      assert (fields + [f])[1..] == fields[1..] + [f];
    }
  }

  lemma {:induction false} FieldTextsSnoc(fields: seq<Field>, f: Field)
    ensures FieldTexts(fields + [f]) == FieldTexts(fields) + [FieldText(f)]
  {
    if fields != [] {
      FieldTextsSnoc(fields[1..], f);
      assert (fields + [f])[1..] == fields[1..] + [f];
    }
  }

  lemma {:induction false} InsertNormalCommute(f: Field, fields: seq<Field>)
    ensures NormalFields(KeyOrder.Insert(FieldKey, f, fields))
         == KeyOrder.Insert(FieldKey, Field(f.key, Normal(f.value)), NormalFields(fields))
  {
    if fields == [] || KeyOrder.Leq(f.key, fields[0].key) {
      assert ([f] + fields)[1..] == fields;
    } else {
      InsertNormalCommute(f, fields[1..]);
      var r := KeyOrder.Insert(FieldKey, f, fields[1..]);
      assert ([fields[0]] + r)[1..] == r;
    }
  }

  lemma {:induction false} SortNormalCommute(fields: seq<Field>)
    ensures NormalFields(KeyOrder.Sort(FieldKey, fields)) == KeyOrder.Sort(FieldKey, NormalFields(fields))
  {
    if fields != [] {
      SortNormalCommute(fields[1..]);
      InsertNormalCommute(fields[0], KeyOrder.Sort(FieldKey, fields[1..]));
    }
  }
}
