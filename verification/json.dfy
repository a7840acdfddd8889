/** JSON text as the backend's encoder writes it and as RFC 8259 reads it. */
module JsonText {
  import opened Collections
  import opened Options

  /** Numbers are carried as the text the encoder gives them. */
  datatype Json =
    | Null
    | Flag(on: bool)
    | Number(digits: string)
    | Text(chars: string)
    | Items(items: seq<Json>)
    | Object(fields: seq<Field>)

  datatype Field = Field(name: string, value: Json)

  // ----- writing

  predicate OneLine(s: string) { '\n' !in s }

  function Hex(n: nat): (c: char)
    requires n < 16
    ensures c != '\n' && IsHex(c) && HexValue(c) == n
  {
    if n < 10 then ('0' as int + n) as char else ('a' as int + n - 10) as char
  }

  function Unit(n: nat): (s: string)
    requires n < 0x10000
    ensures OneLine(s)
  {
    ['\\', 'u', Hex(n / 0x1000), Hex(n / 0x100 % 0x10), Hex(n / 0x10 % 0x10), Hex(n % 0x10)]
  }

  /** The letter of a two-character escape, or `u` for a character that has none. */
  function Letter(c: char): (letter: char)
    ensures letter != '\n' && (letter != 'u' ==> IsLetter(letter) && Named(letter) == c as int)
  {
    if c == '"' || c == '\\' then c
    else if c == '\n' then 'n'
    else if c == '\r' then 'r'
    else if c == '\t' then 't'
    else if c as int == 12 then 'f'
    else if c as int == 8 then 'b'
    else 'u'
  }

  /** The surrogates of a character past the basic plane. */
  function High(c: char): (unit: nat)
    requires c as int >= 0x10000
    ensures 0xd800 <= unit < 0xdc00
  {
    0xd800 + (c as int - 0x10000) / 0x400
  }

  function Low(c: char): (unit: nat)
    requires c as int >= 0x10000
    ensures 0xdc00 <= unit < 0xe000
  {
    0xdc00 + (c as int - 0x10000) % 0x400
  }

  /** The encoder's escape of one character: ASCII only, so every control character goes. */
  function Escape(c: char): (s: string)
    ensures OneLine(s)
  {
    if Letter(c) != 'u' then ['\\', Letter(c)]
    else if ' ' <= c <= '~' then [c]
    else if c as int < 0x10000 then Unit(c as int)
    else Unit(High(c)) + Unit(Low(c))
  }

  function Escaped(s: string): (r: string)
    ensures OneLine(r)
  {
    if s == [] then [] else Escape(s[0]) + Escaped(s[1..])
  }

  function Quoted(s: string): string { "\"" + Escaped(s) + "\"" }

  predicate NumberChar(c: char) { '0' <= c <= '9' || c == '-' || c == '+' || c == '.' || c == 'e' || c == 'E' }

  predicate NumberText(s: string) { s != [] && forall i :: 0 <= i < |s| ==> NumberChar(s[i]) }

  /** Every number is written as one. */
  ghost predicate Plain(j: Json) {
    match j
    case Number(digits) => NumberText(digits)
    case Items(items) => forall k :: k in items ==> Plain(k)
    case Object(fields) => forall f :: f in fields ==> Plain(f.value)
    case _ => true
  }

  function Dumps(j: Json): string {
    match j
    case Null => "null"
    case Flag(on) => if on then "true" else "false"
    case Number(digits) => digits
    case Text(chars) => Quoted(chars)
    case Items(items) => "[" + DumpItems(items) + "]"
    case Object(fields) => "{" + DumpFields(fields) + "}"
  }

  function DumpItems(items: seq<Json>): string {
    if items == [] then ""
    else if |items| == 1 then Dumps(items[0])
    else Dumps(items[0]) + (", " + DumpItems(items[1..]))
  }

  function DumpField(f: Field): string { Quoted(f.name) + (": " + Dumps(f.value)) }

  function DumpFields(fields: seq<Field>): string {
    if fields == [] then ""
    else if |fields| == 1 then DumpField(fields[0])
    else DumpField(fields[0]) + (", " + DumpFields(fields[1..]))
  }

  /** Text of visible ASCII characters and spaces, without quotes and backslashes, is written as
      it is. */
  lemma {:induction false} VisibleStays(s: string)
    requires forall i :: 0 <= i < |s| ==> ' ' <= s[i] <= '~' && s[i] != '"' && s[i] != '\\'
    ensures Escaped(s) == s
  {
    if s != [] {
      VisibleStays(s[1..]);
      assert Escape(s[0]) == [s[0]] && s == [s[0]] + s[1..];
    }
  }

  /** Whatever text a payload carries, it is written on one line. */
  lemma {:induction false} DumpsOneLine(j: Json)
    requires Plain(j)
    ensures OneLine(Dumps(j))
  {
    match j
    case Items(items) => ItemsOneLine(items);
    case Object(fields) => FieldsOneLine(fields);
    case _ =>
  }

  lemma {:induction false} ItemsOneLine(items: seq<Json>)
    requires forall k :: k in items ==> Plain(k)
    ensures OneLine(DumpItems(items))
  {
    if items != [] {
      DumpsOneLine(items[0]);
      ItemsOneLine(items[1..]);
    }
  }

  lemma {:induction false} FieldsOneLine(fields: seq<Field>)
    requires forall f :: f in fields ==> Plain(f.value)
    ensures OneLine(DumpFields(fields))
  {
    if fields != [] {
      assert fields[0] in fields;
      DumpsOneLine(fields[0].value);
      FieldsOneLine(fields[1..]);
    }
  }

  // ----- reading

  /** A value read from the front of a text and what follows it. */
  datatype Read<T> = Got(value: T, rest: string) | Bad

  predicate IsHex(c: char) { '0' <= c <= '9' || 'a' <= c <= 'f' || 'A' <= c <= 'F' }

  function HexValue(c: char): nat {
    if '0' <= c <= '9' then c as int - '0' as int
    else if 'a' <= c <= 'f' then c as int - 'a' as int + 10
    else if 'A' <= c <= 'F' then c as int - 'A' as int + 10
    else 0
  }

  predicate IsLetter(c: char) { c in "\"\\/bfnrt" }

  function Named(c: char): nat {
    match c
    case 'n' => 10
    case 'r' => 13
    case 't' => 9
    case 'f' => 12
    case 'b' => 8
    case _ => c as int
  }

  /** The UTF-16 code units of a character: what a browser's string holds. */
  function Units(c: char): seq<nat> {
    if c as int < 0x10000 then [c as int] else [High(c), Low(c)]
  }

  function AllUnits(s: string): seq<nat> {
    if s == [] then [] else Units(s[0]) + AllUnits(s[1..])
  }

  function Prefixed(units: seq<nat>, r: Read<seq<nat>>): Read<seq<nat>> {
    match r
    case Bad => Bad
    case Got(more, rest) => Got(units + more, rest)
  }

  /** The rest of a string after its opening quote, as section 7 of RFC 8259 reads it. */
  function ReadUnits(s: string): (r: Read<seq<nat>>)
    ensures r.Got? ==> |r.rest| < |s|
  {
    if s == [] || (s[0] as int) < 0x20 then Bad
    else if s[0] == '"' then Got([], s[1..])
    else if s[0] != '\\' then Prefixed(Units(s[0]), ReadUnits(s[1..]))
    else if |s| >= 6 && s[1] == 'u' && IsHex(s[2]) && IsHex(s[3]) && IsHex(s[4]) && IsHex(s[5]) then
      Prefixed([HexValue(s[2]) * 0x1000 + HexValue(s[3]) * 0x100 + HexValue(s[4]) * 0x10 + HexValue(s[5])],
               ReadUnits(s[6..]))
    else if |s| >= 2 && IsLetter(s[1]) then Prefixed([Named(s[1])], ReadUnits(s[2..]))
    else Bad
  }

  /** The characters of a string, unless a surrogate stands alone. */
  function FromUnits(units: seq<nat>): Option<string> {
    if units == [] then Some("")
    else if units[0] < 0xd800 || 0xe000 <= units[0] < 0x10000 then
      match FromUnits(units[1..])
      case None => None
      case Some(s) => Some([units[0] as char] + s)
    else if |units| >= 2 && 0xd800 <= units[0] < 0xdc00 && 0xdc00 <= units[1] < 0xe000 then
      match FromUnits(units[2..])
      case None => None
      case Some(s) => Some([(0x10000 + (units[0] - 0xd800) * 0x400 + (units[1] - 0xdc00)) as char] + s)
    else None
  }

  function ReadString(s: string): (r: Read<string>)
    ensures r.Got? ==> |r.rest| < |s|
  {
    match ReadUnits(s)
    case Bad => Bad
    case Got(units, rest) =>
      match FromUnits(units)
      case None => Bad
      case Some(chars) => Got(chars, rest)
  }

  function Skip(s: string): (t: string)
    ensures |t| <= |s|
  {
    if s != [] && (s[0] == ' ' || s[0] == '\t' || s[0] == '\n' || s[0] == '\r') then Skip(s[1..]) else s
  }

  /** How many characters of a number stand in front. */
  function NumberLength(s: string): (n: nat)
    ensures n <= |s|
  {
    if s != [] && NumberChar(s[0]) then 1 + NumberLength(s[1..]) else 0
  }

  function ReadValue(s: string): (r: Read<Json>)
    ensures r.Got? ==> |r.rest| < |s|
    decreases |s|, 0
  {
    if s == [] then Bad
    else if s[0] == '"' then
      match ReadString(s[1..])
      case Bad => Bad
      case Got(chars, rest) => Got(Text(chars), rest)
    else if s[0] == '[' then
      match ReadItems(Skip(s[1..]))
      case Bad => Bad
      case Got(items, rest) => Got(Items(items), rest)
    else if s[0] == '{' then
      match ReadFields(Skip(s[1..]))
      case Bad => Bad
      case Got(fields, rest) => Got(Object(fields), rest)
    else if "null" <= s then Got(Null, s[4..])
    else if "true" <= s then Got(Flag(true), s[4..])
    else if "false" <= s then Got(Flag(false), s[5..])
    else
      var n := NumberLength(s);
      if n == 0 then Bad else Got(Number(s[..n]), s[n..])
  }

  /** The items of a list up to its closing bracket. */
  function ReadItems(s: string): (r: Read<seq<Json>>)
    ensures r.Got? ==> |r.rest| < |s|
    decreases |s|, 2
  {
    if s != [] && s[0] == ']' then Got([], s[1..]) else MoreItems(s)
  }

  function MoreItems(s: string): (r: Read<seq<Json>>)
    ensures r.Got? ==> |r.rest| < |s|
    decreases |s|, 1
  {
    match ReadValue(s)
    case Bad => Bad
    case Got(j, rest) =>
      var t := Skip(rest);
      if t == [] then Bad
      else if t[0] == ']' then Got([j], t[1..])
      else if t[0] != ',' then Bad
      else
        match MoreItems(Skip(t[1..]))
        case Bad => Bad
        case Got(js, end) => Got([j] + js, end)
  }

  function ReadField(s: string): (r: Read<Field>)
    ensures r.Got? ==> |r.rest| < |s|
    decreases |s|, 0
  {
    if s == [] || s[0] != '"' then Bad
    else
      match ReadString(s[1..])
      case Bad => Bad
      case Got(name, rest) =>
        var t := Skip(rest);
        if t == [] || t[0] != ':' then Bad
        else
          match ReadValue(Skip(t[1..]))
          case Bad => Bad
          case Got(j, end) => Got(Field(name, j), end)
  }

  /** The fields of an object up to its closing brace. */
  function ReadFields(s: string): (r: Read<seq<Field>>)
    ensures r.Got? ==> |r.rest| < |s|
    decreases |s|, 2
  {
    if s != [] && s[0] == '}' then Got([], s[1..]) else MoreFields(s)
  }

  function MoreFields(s: string): (r: Read<seq<Field>>)
    ensures r.Got? ==> |r.rest| < |s|
    decreases |s|, 1
  {
    match ReadField(s)
    case Bad => Bad
    case Got(f, rest) =>
      var t := Skip(rest);
      if t == [] then Bad
      else if t[0] == '}' then Got([f], t[1..])
      else if t[0] != ',' then Bad
      else
        match MoreFields(Skip(t[1..]))
        case Bad => Bad
        case Got(fs, end) => Got([f] + fs, end)
  }

  /** A whole text as one value. */
  function Parse(s: string): Option<Json> {
    match ReadValue(Skip(s))
    case Bad => None
    case Got(j, rest) => if Skip(rest) == [] then Some(j) else None
  }

  // ----- strings read back

  lemma FourDigits(n: nat)
    requires n < 0x10000
    ensures n / 0x1000 * 0x1000 + n / 0x100 % 0x10 * 0x100 + n / 0x10 % 0x10 * 0x10 + n % 0x10 == n
  {
    var a := n / 0x10;
    assert n / 0x100 == a / 0x10 && n / 0x1000 == a / 0x10 / 0x10;
  }

  lemma UnitReads(n: nat, rest: string)
    requires n < 0x10000
    ensures ReadUnits(Unit(n) + rest) == Prefixed([n], ReadUnits(rest))
  {
    var s := Unit(n) + rest;
    FourDigits(n);
    assert s[6..] == rest;
  }

  lemma NamedReads(c: char, rest: string)
    requires IsLetter(c)
    ensures ReadUnits(['\\', c] + rest) == Prefixed([Named(c)], ReadUnits(rest))
  {
    assert (['\\', c] + rest)[2..] == rest;
  }

  lemma PlainReads(c: char, rest: string)
    requires ' ' <= c <= '~' && c != '"' && c != '\\'
    ensures ReadUnits([c] + rest) == Prefixed(Units(c), ReadUnits(rest))
  {
    assert ([c] + rest)[1..] == rest;
  }

  lemma PairReads(high: nat, low: nat, rest: string)
    requires high < 0x10000 && low < 0x10000
    ensures ReadUnits(Unit(high) + Unit(low) + rest) == Prefixed([high, low], ReadUnits(rest))
  {
    UnitReads(low, rest);
    UnitReads(high, Unit(low) + rest);
    Associative(Unit(high), Unit(low), rest);
    PrefixedTwice(high, low, ReadUnits(rest));
  }

  lemma PrefixedTwice(a: nat, b: nat, r: Read<seq<nat>>)
    ensures Prefixed([a], Prefixed([b], r)) == Prefixed([a, b], r)
  {
    if r.Got? {
      Associative([a], [b], r.value);
      assert [a] + [b] == [a, b];
    }
  }

  lemma EscapeReads(c: char, rest: string)
    ensures ReadUnits(Escape(c) + rest) == Prefixed(Units(c), ReadUnits(rest))
  {
    if Letter(c) != 'u' {
      NamedReads(Letter(c), rest);
    } else if ' ' <= c <= '~' {
      PlainReads(c, rest);
    } else if c as int < 0x10000 {
      UnitReads(c as int, rest);
    } else {
      PairReads(High(c), Low(c), rest);
    }
  }

  /** A string as the encoder escapes it reads back as the same code units. */
  lemma {:induction false} EscapedReads(s: string, rest: string)
    ensures ReadUnits(Escaped(s) + ("\"" + rest)) == Got(AllUnits(s), rest)
  {
    var end := "\"" + rest;
    if s == [] {
      assert Escaped(s) + end == end && end[1..] == rest;
    } else {
      var tail := Escaped(s[1..]) + end;
      EscapedReads(s[1..], rest);
      EscapeReads(s[0], tail);
      Associative(Escape(s[0]), Escaped(s[1..]), end);
      assert Escaped(s) + end == Escape(s[0]) + tail;
    }
  }

  lemma OneUnitBack(c: char, more: seq<nat>, s: string)
    requires c as int < 0x10000 && FromUnits(more) == Some(s)
    ensures FromUnits([c as int] + more) == Some([c] + s)
  {
    assert ([c as int] + more)[1..] == more;
  }

  lemma TwoUnitsBack(c: char, more: seq<nat>, s: string)
    requires c as int >= 0x10000 && FromUnits(more) == Some(s)
    ensures FromUnits([High(c), Low(c)] + more) == Some([c] + s)
  {
    assert ([High(c), Low(c)] + more)[2..] == more;
    PairIs(c);
  }

  lemma CharBack(c: char, more: seq<nat>, s: string)
    requires FromUnits(more) == Some(s)
    ensures FromUnits(Units(c) + more) == Some([c] + s)
  {
    if c as int < 0x10000 {
      OneUnitBack(c, more, s);
    } else {
      TwoUnitsBack(c, more, s);
    }
  }

  lemma {:induction false} UnitsBack(s: string)
    ensures FromUnits(AllUnits(s)) == Some(s)
  {
    if s != [] {
      UnitsBack(s[1..]);
      CharBack(s[0], AllUnits(s[1..]), s[1..]);
      assert s == [s[0]] + s[1..];
    }
  }

  lemma PairIs(c: char)
    requires c as int >= 0x10000
    ensures 0x10000 + (High(c) - 0xd800) * 0x400 + (Low(c) - 0xdc00) == c as int
  {
  }

  lemma StringReads(s: string, rest: string)
    ensures ReadString(Escaped(s) + ("\"" + rest)) == Got(s, rest)
  {
    EscapedReads(s, rest);
    UnitsBack(s);
  }

  // ----- values read back

  /** What follows a value: nothing that would continue a number. */
  predicate Stops(rest: string) { rest == [] || !NumberChar(rest[0]) }

  lemma {:induction false} NumberReads(digits: string, rest: string)
    requires Stops(rest) && forall i :: 0 <= i < |digits| ==> NumberChar(digits[i])
    ensures NumberLength(digits + rest) == |digits|
  {
    if digits == [] {
      assert digits + rest == rest;
    } else {
      NumberReads(digits[1..], rest);
      assert (digits + rest)[1..] == digits[1..] + rest;
    }
  }

  /** Characters a value can start with. */
  predicate Starts(c: char) { c == '"' || c == '[' || c == '{' || c == 'n' || c == 't' || c == 'f' || NumberChar(c) }

  lemma DumpsStarts(j: Json)
    requires Plain(j)
    ensures Dumps(j) != [] && Starts(Dumps(j)[0])
  {
  }

  lemma SkipNone(s: string)
    requires s == [] || !(s[0] == ' ' || s[0] == '\t' || s[0] == '\n' || s[0] == '\r')
    ensures Skip(s) == s
  {
  }

  lemma SkipSpace(s: string)
    requires s != [] && !(s[0] == ' ' || s[0] == '\t' || s[0] == '\n' || s[0] == '\r')
    ensures Skip(" " + s) == s
  {
    assert (" " + s)[1..] == s;
  }

  /** A value as the encoder writes it is read back as that value, up to its end. */
  lemma {:induction false} ValueReads(j: Json, rest: string)
    requires Plain(j) && Stops(rest)
    ensures ReadValue(Dumps(j) + rest) == Got(j, rest)
    decreases j, 2
  {
    match j
    case Null => WordReads("null", rest);
    case Flag(on) => WordReads(if on then "true" else "false", rest);
    case Number(digits) => NumberValueReads(digits, rest);
    case Text(chars) => TextReads(chars, rest);
    case Items(items) =>
      ItemsRead(items, rest);
      ListReads(DumpItems(items), rest, items);
    case Object(fields) =>
      FieldsRead(fields, rest);
      ObjectReads(DumpFields(fields), rest, fields);
  }

  lemma ListReads(inner: string, rest: string, items: seq<Json>)
    requires ReadItems(Skip(inner + ("]" + rest))) == Got(items, rest)
    ensures ReadValue("[" + inner + "]" + rest) == Got(Items(items), rest)
  {
    var s := "[" + inner + "]" + rest;
    assert s[0] == '[' && s[1..] == inner + ("]" + rest);
  }

  lemma ObjectReads(inner: string, rest: string, fields: seq<Field>)
    requires ReadFields(Skip(inner + ("}" + rest))) == Got(fields, rest)
    ensures ReadValue("{" + inner + "}" + rest) == Got(Object(fields), rest)
  {
    var s := "{" + inner + "}" + rest;
    assert s[0] == '{' && s[1..] == inner + ("}" + rest);
  }

  lemma WordReads(word: string, rest: string)
    requires word == "null" || word == "true" || word == "false"
    ensures ReadValue(word + rest) ==
            Got(if word == "null" then Null else Flag(word == "true"), rest)
  {
    var s := word + rest;
    assert s[..|word|] == word && s[|word|..] == rest;
    assert word <= s;
    assert s[0] == word[0];
  }

  lemma NumberValueReads(digits: string, rest: string)
    requires NumberText(digits) && Stops(rest)
    ensures ReadValue(digits + rest) == Got(Number(digits), rest)
  {
    var s := digits + rest;
    NumberReads(digits, rest);
    assert s[0] == digits[0] && s[..|digits|] == digits && s[|digits|..] == rest;
    assert "null"[0] == 'n' && "true"[0] == 't' && "false"[0] == 'f';
  }

  lemma TextReads(chars: string, rest: string)
    ensures ReadValue(Quoted(chars) + rest) == Got(Text(chars), rest)
  {
    QuotedSplits(chars, rest);
    StringReads(chars, rest);
  }

  lemma {:induction false} ItemsRead(items: seq<Json>, rest: string)
    requires forall k :: k in items ==> Plain(k)
    ensures ReadItems(Skip(DumpItems(items) + ("]" + rest))) == Got(items, rest)
    decreases items, 1
  {
    var s := DumpItems(items) + ("]" + rest);
    if items == [] {
      assert s == "]" + rest && s[1..] == rest;
      SkipNone(s);
    } else {
      ItemsStart(items);
      assert s[0] == DumpItems(items)[0];
      SkipNone(s);
      MoreItemsRead(items, rest);
    }
  }

  lemma ItemsStart(items: seq<Json>)
    requires items != [] && forall k :: k in items ==> Plain(k)
    ensures DumpItems(items) != [] && Starts(DumpItems(items)[0])
  {
    DumpsStarts(items[0]);
  }

  lemma LastItem(s: string, j: Json, rest: string)
    requires ReadValue(s) == Got(j, "]" + rest)
    ensures MoreItems(s) == Got([j], rest)
  {
    SkipNone("]" + rest);
    assert ("]" + rest)[1..] == rest;
  }

  lemma NextItem(s: string, j: Json, more: string, js: seq<Json>, rest: string)
    requires ReadValue(s) == Got(j, ", " + more) && Skip(" " + more) == more && MoreItems(more) == Got(js, rest)
    ensures MoreItems(s) == Got([j] + js, rest)
  {
    SkipNone(", " + more);
    assert (", " + more)[1..] == " " + more;
  }

  lemma {:induction false} MoreItemsRead(items: seq<Json>, rest: string)
    requires items != [] && forall k :: k in items ==> Plain(k)
    ensures MoreItems(DumpItems(items) + ("]" + rest)) == Got(items, rest)
    decreases items, 0
  {
    var first, end := items[0], "]" + rest;
    if |items| == 1 {
      ValueReads(first, end);
      LastItem(Dumps(first) + end, first, rest);
      assert [first] == items;
    } else {
      var tail := DumpItems(items[1..]);
      var more := tail + end;
      ItemsStart(items[1..]);
      MoreItemsRead(items[1..], rest);
      CommaThen(Dumps(first), tail, end);
      ValueReads(first, ", " + more);
      SkipSpace(more);
      NextItem(Dumps(first) + (", " + more), first, more, items[1..], rest);
      assert [first] + items[1..] == items;
    }
  }

  lemma CommaThen(a: string, tail: string, end: string)
    ensures a + (", " + tail) + end == a + (", " + (tail + end))
  {
  }

  lemma QuotedSplits(name: string, after: string)
    ensures
      var s := Quoted(name) + after;
      s[0] == '"' && s[1..] == Escaped(name) + ("\"" + after)
  {
  }

  lemma FieldIs(s: string, name: string, value: string, j: Json, rest: string)
    requires s != [] && s[0] == '"' && ReadString(s[1..]) == Got(name, ": " + value)
    requires Skip(" " + value) == value && ReadValue(value) == Got(j, rest)
    ensures ReadField(s) == Got(Field(name, j), rest)
  {
    SkipNone(": " + value);
    assert (": " + value)[1..] == " " + value;
  }

  lemma {:induction false} FieldReads(f: Field, rest: string)
    requires Plain(f.value) && Stops(rest)
    ensures ReadField(DumpField(f) + rest) == Got(f, rest)
    decreases f, 3
  {
    var value := Dumps(f.value) + rest;
    DumpsStarts(f.value);
    SkipSpace(value);
    ValueReads(f.value, rest);
    QuotedSplits(f.name, ": " + value);
    StringReads(f.name, ": " + value);
    FieldIs(Quoted(f.name) + (": " + value), f.name, value, f.value, rest);
    ColonThen(Quoted(f.name), Dumps(f.value), rest);
  }

  lemma ColonThen(a: string, value: string, rest: string)
    ensures a + (": " + value) + rest == a + (": " + (value + rest))
  {
  }

  lemma FieldsStart(fields: seq<Field>)
    requires fields != []
    ensures DumpFields(fields) != [] && DumpFields(fields)[0] == '"'
  {
  }

  lemma {:induction false} FieldsRead(fields: seq<Field>, rest: string)
    requires forall f :: f in fields ==> Plain(f.value)
    ensures ReadFields(Skip(DumpFields(fields) + ("}" + rest))) == Got(fields, rest)
    decreases fields, 1
  {
    var s := DumpFields(fields) + ("}" + rest);
    if fields == [] {
      assert s == "}" + rest && s[1..] == rest;
      SkipNone(s);
    } else {
      FieldsStart(fields);
      assert s[0] == DumpFields(fields)[0];
      SkipNone(s);
      MoreFieldsRead(fields, rest);
    }
  }

  lemma LastField(s: string, f: Field, rest: string)
    requires ReadField(s) == Got(f, "}" + rest)
    ensures MoreFields(s) == Got([f], rest)
  {
    SkipNone("}" + rest);
    assert ("}" + rest)[1..] == rest;
  }

  lemma NextField(s: string, f: Field, more: string, fs: seq<Field>, rest: string)
    requires ReadField(s) == Got(f, ", " + more) && Skip(" " + more) == more && MoreFields(more) == Got(fs, rest)
    ensures MoreFields(s) == Got([f] + fs, rest)
  {
    SkipNone(", " + more);
    assert (", " + more)[1..] == " " + more;
  }

  lemma {:induction false} MoreFieldsRead(fields: seq<Field>, rest: string)
    requires fields != [] && forall f :: f in fields ==> Plain(f.value)
    ensures MoreFields(DumpFields(fields) + ("}" + rest)) == Got(fields, rest)
    decreases fields, 0
  {
    var first, end := fields[0], "}" + rest;
    assert first in fields;
    if |fields| == 1 {
      FieldReads(first, end);
      LastField(DumpField(first) + end, first, rest);
      assert [first] == fields;
    } else {
      var tail := DumpFields(fields[1..]);
      var more := tail + end;
      FieldsStart(fields[1..]);
      MoreFieldsRead(fields[1..], rest);
      CommaThen(DumpField(first), tail, end);
      FieldReads(first, ", " + more);
      SkipSpace(more);
      NextField(DumpField(first) + (", " + more), first, more, fields[1..], rest);
      assert [first] + fields[1..] == fields;
    }
  }

  /** Parsing undoes writing, for every value. */
  lemma ParseUndoesDumps(j: Json)
    requires Plain(j)
    ensures Parse(Dumps(j)) == Some(j)
  {
    DumpsStarts(j);
    SkipNone(Dumps(j));
    ValueReads(j, "");
    assert Dumps(j) + "" == Dumps(j);
  }

  /** Two payloads without a newline between them are no JSON text. */
  lemma TwoAreRefused(a: Json, b: Json)
    requires Plain(a) && Plain(b) && a.Object? && b.Object?
    ensures Parse(Dumps(a) + Dumps(b)) == None
  {
    DumpsStarts(a);
    DumpsStarts(b);
    SkipNone(Dumps(a) + Dumps(b));
    ValueReads(a, Dumps(b));
    SkipNone(Dumps(b));
  }

  // ----- only plain values are read

  lemma {:induction false} NumberFront(s: string)
    ensures forall i :: 0 <= i < NumberLength(s) ==> NumberChar(s[i])
  {
    if s != [] && NumberChar(s[0]) {
      NumberFront(s[1..]);
      forall i | 0 <= i < NumberLength(s) ensures NumberChar(s[i]) {
        assert i > 0 ==> s[i] == s[1..][i - 1];
      }
    }
  }

  lemma {:induction false} ReadsPlain(s: string)
    ensures ReadValue(s).Got? ==> Plain(ReadValue(s).value)
    decreases |s|, 0
  {
    if s != [] && s[0] == '[' {
      ItemsPlain(Skip(s[1..]));
    } else if s != [] && s[0] == '{' {
      FieldsPlain(Skip(s[1..]));
    } else {
      NumberFront(s);
    }
  }

  lemma {:induction false} ItemsPlain(s: string)
    ensures ReadItems(s).Got? ==> forall k :: k in ReadItems(s).value ==> Plain(k)
    decreases |s|, 2
  {
    if !(s != [] && s[0] == ']') {
      MoreItemsPlain(s);
    }
  }

  lemma {:induction false} MoreItemsPlain(s: string)
    ensures MoreItems(s).Got? ==> forall k :: k in MoreItems(s).value ==> Plain(k)
    decreases |s|, 1
  {
    ReadsPlain(s);
    if ReadValue(s).Got? {
      var t := Skip(ReadValue(s).rest);
      if t != [] {
        MoreItemsPlain(Skip(t[1..]));
      }
    }
  }

  lemma {:induction false} FieldPlain(s: string)
    ensures ReadField(s).Got? ==> Plain(ReadField(s).value.value)
    decreases |s|, 0
  {
    if s != [] && ReadString(s[1..]).Got? {
      var t := Skip(ReadString(s[1..]).rest);
      if t != [] {
        ReadsPlain(Skip(t[1..]));
      }
    }
  }

  lemma {:induction false} FieldsPlain(s: string)
    ensures ReadFields(s).Got? ==> forall f :: f in ReadFields(s).value ==> Plain(f.value)
    decreases |s|, 2
  {
    if !(s != [] && s[0] == '}') {
      MoreFieldsPlain(s);
    }
  }

  lemma {:induction false} MoreFieldsPlain(s: string)
    ensures MoreFields(s).Got? ==> forall f :: f in MoreFields(s).value ==> Plain(f.value)
    decreases |s|, 1
  {
    FieldPlain(s);
    if ReadField(s).Got? {
      var t := Skip(ReadField(s).rest);
      if t != [] {
        MoreFieldsPlain(Skip(t[1..]));
      }
    }
  }

  /** A value survives writing and parsing exactly when every number in it, however deep, is
      written as a number: the encoder's NaN and Infinity are not. */
  lemma SurvivesIff(j: Json)
    ensures Parse(Dumps(j)) == Some(j) <==> Plain(j)
  {
    if Plain(j) {
      ParseUndoesDumps(j);
    } else {
      ReadsPlain(Skip(Dumps(j)));
    }
  }

  lemma RefusedAtOnce(s: string)
    requires s != [] && !Starts(s[0])
    ensures ReadValue(s) == Bad
  {
    assert "null"[0] == 'n' && "true"[0] == 't' && "false"[0] == 'f';
  }

  /** What the encoder writes for a float that is not a number, or is infinite, is refused. */
  lemma NanIsRefused()
    ensures Parse(Dumps(Number("NaN"))) == None && Parse(Dumps(Number("Infinity"))) == None
  {
    SkipNone("NaN");
    SkipNone("Infinity");
    RefusedAtOnce("NaN");
    RefusedAtOnce("Infinity");
  }
}
