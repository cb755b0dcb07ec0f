/** `canonicalGraphJson` of contracts/workflow-definitions.ts: sorted keys, then `JSON.stringify`. */
module CanonicalJson {
  import opened Ordering
  import opened Decimal
  import opened Values

  // ----- sorting keys -------------------------------------------------------

  function Keys(fields: seq<Field>): (keys: seq<string>)
    ensures |keys| == |fields| && forall i :: 0 <= i < |keys| ==> keys[i] == fields[i].key
  {
    seq(|fields|, i requires 0 <= i < |fields| => fields[i].key)
  }

  /** A value JSON can carry unharmed: whole numbers, and no key twice in an object. */
  ghost predicate Plain(v: Value)
  {
    match v
    case Null => true
    case Bool(_) => true
    case Num(n) => n.Finite? && n.r.Floor as real == n.r
    case Str(_) => true
    case Arr(items) => forall i :: 0 <= i < |items| ==> Plain(items[i])
    case Obj(fields) =>
      && NoDuplicates(Keys(fields))
      && forall i :: 0 <= i < |fields| ==> Plain(fields[i].value)
    case _ => false
  }

  /** `Object.keys(value).sort().map((k) => [k, value[k]])` */
  function Reorder(fields: seq<Field>): (r: seq<Field>)
    ensures |r| == |fields|
  {
    var keys := Sort(Keys(fields));
    SortLength(Keys(fields));
    seq(|keys|, i requires 0 <= i < |keys| => Field(keys[i], Get(fields, keys[i])))
  }

  lemma SortLength(s: seq<string>)
    ensures |Sort(s)| == |s|
  {
    assert |multiset(Sort(s))| == |multiset(s)|;
  }

  /** The value with the keys of every object in it sorted. */
  function Canonical(v: Value): Value
    decreases v, 1
  {
    match v
    case Arr(items) => Arr(seq(|items|, i requires 0 <= i < |items| => Canonical(items[i])))
    case Obj(fields) => Obj(Reorder(CanonicalFields(fields)))
    case _ => v
  }

  function CanonicalFields(fields: seq<Field>): (r: seq<Field>)
    ensures |r| == |fields| && Keys(r) == Keys(fields)
    decreases fields, 0
  {
    seq(|fields|, i requires 0 <= i < |fields| => Field(fields[i].key, Canonical(fields[i].value)))
  }

  // ----- JSON.stringify -----------------------------------------------------

  function HexDigit(d: nat): char
    requires d < 16
  {
    if d < 10 then '0' + d as char else 'a' + (d - 10) as char
  }

  /** One character of a string, escaped as section 7 of RFC 8259 demands and `JSON.stringify` chooses. */
  function EscapeChar(c: char): string
  {
    if c == '"' then "\\\""
    else if c == '\\' then "\\\\"
    else if c == '\U{0008}' then "\\b"
    else if c == '\t' then "\\t"
    else if c == '\n' then "\\n"
    else if c == '\U{000C}' then "\\f"
    else if c == '\r' then "\\r"
    else if c < ' ' then "\\u00" + [HexDigit(c as int / 16), HexDigit(c as int % 16)]
    else [c]
  }

  function Escape(s: string): string
  {
    if s == [] then [] else EscapeChar(s[0]) + Escape(s[1..])
  }

  function Quote(s: string): string
  {
    "\"" + Escape(s) + "\""
  }

  function PrintInt(n: int): string
  {
    if n < 0 then "-" + Digits(-n) else Digits(n)
  }

  ghost predicate PlainItems(items: seq<Value>)
  {
    forall i :: 0 <= i < |items| ==> Plain(items[i])
  }

  ghost predicate PlainFields(fields: seq<Field>)
  {
    forall i :: 0 <= i < |fields| ==> Plain(fields[i].value)
  }

  /** `JSON.stringify` without indentation. */
  ghost function Stringify(v: Value): string
    requires Plain(v)
    decreases v, 1
  {
    match v
    case Null => "null"
    case Bool(b) => if b then "true" else "false"
    case Num(n) => PrintInt(n.r.Floor)
    case Str(s) => Quote(s)
    case Arr(items) => if items == [] then "[]" else "[" + Stringify(items[0]) + MoreItems(items[1..])
    case Obj(fields) => if fields == [] then "{}" else "{" + StringifyField(fields[0]) + MoreFields(fields[1..])
  }

  ghost function MoreItems(items: seq<Value>): string
    requires PlainItems(items)
    decreases items, 0
  {
    if items == [] then "]" else "," + Stringify(items[0]) + MoreItems(items[1..])
  }

  ghost function StringifyField(field: Field): string
    requires Plain(field.value)
    decreases field, 2
  {
    Quote(field.key) + ":" + Stringify(field.value)
  }

  ghost function MoreFields(fields: seq<Field>): string
    requires PlainFields(fields)
    decreases fields, 0
  {
    if fields == [] then "}" else "," + StringifyField(fields[0]) + MoreFields(fields[1..])
  }

  // ----- a reader that undoes it --------------------------------------------

  datatype Parsed<T> = Failed | Parsed(value: T, rest: string)
  {
    predicate IsFailure() { Failed? }
    function PropagateFailure<U>(): Parsed<U> requires Failed? { Failed }
    function Extract(): (T, string) requires Parsed? { (value, rest) }
  }

  predicate IsHex(c: char)
  {
    IsDigit(c) || 'a' <= c <= 'f'
  }

  function HexValue(c: char): (d: nat)
    requires IsHex(c)
    ensures d < 16
  {
    if IsDigit(c) then DigitValue(c) else (c as int) - ('a' as int) + 10
  }

  /** One character of a quoted string, escaped or not. */
  function ParseChar(s: string): (p: Parsed<char>)
    ensures p.Parsed? ==> |p.rest| < |s|
  {
    if s == [] || s[0] == '"' || s[0] < ' ' then Failed
    else if s[0] != '\\' then Parsed(s[0], s[1..])
    else if |s| < 2 then Failed
    else if s[1] == '"' || s[1] == '\\' then Parsed(s[1], s[2..])
    else if s[1] == 'b' then Parsed('\U{0008}', s[2..])
    else if s[1] == 't' then Parsed('\t', s[2..])
    else if s[1] == 'n' then Parsed('\n', s[2..])
    else if s[1] == 'f' then Parsed('\U{000C}', s[2..])
    else if s[1] == 'r' then Parsed('\r', s[2..])
    else if |s| >= 6 && s[..4] == "\\u00" && IsHex(s[4]) && IsHex(s[5]) then
      Parsed((HexValue(s[4]) * 16 + HexValue(s[5])) as char, s[6..])
    else Failed
  }

  /** The characters up to the closing quote. */
  function ParseChars(s: string): (p: Parsed<string>)
    ensures p.Parsed? ==> |p.rest| < |s|
    decreases |s|
  {
    if s != [] && s[0] == '"' then Parsed("", s[1..])
    else
      var (c, rest) :- ParseChar(s);
      var (more, end) :- ParseChars(rest);
      Parsed([c] + more, end)
  }

  function ParseNat(s: string): (p: Parsed<nat>)
    ensures p.Parsed? ==> |p.rest| < |s|
  {
    var digits := DigitPrefix(s);
    if digits == [] then Failed else Parsed(ValueOf(digits), s[|digits|..])
  }

  function ParseInt(s: string): (p: Parsed<int>)
    ensures p.Parsed? ==> |p.rest| < |s|
  {
    if s != [] && s[0] == '-' then
      var (n, rest) :- ParseNat(s[1..]);
      Parsed(-(n as int), rest)
    else
      var (n, rest) :- ParseNat(s);
      Parsed(n, rest)
  }

  function ParseValue(s: string): (p: Parsed<Value>)
    ensures p.Parsed? ==> |p.rest| < |s|
    decreases |s|, 1
  {
    if s == [] then Failed
    else if "null" <= s then Parsed(Null, s[4..])
    else if "true" <= s then Parsed(Bool(true), s[4..])
    else if "false" <= s then Parsed(Bool(false), s[5..])
    else if s[0] == '"' then
      var (text, rest) :- ParseChars(s[1..]);
      Parsed(Str(text), rest)
    else if s[0] == '[' then
      if |s| > 1 && s[1] == ']' then Parsed(Arr([]), s[2..])
      else
        var (first, rest) :- ParseValue(s[1..]);
        var (more, end) :- ParseItems(rest);
        Parsed(Arr([first] + more), end)
    else if s[0] == '{' then
      if |s| > 1 && s[1] == '}' then Parsed(Obj([]), s[2..])
      else
        var (first, rest) :- ParseField(s[1..]);
        var (more, end) :- ParseFields(rest);
        Parsed(Obj([first] + more), end)
    else
      var (n, rest) :- ParseInt(s);
      Parsed(Num(Finite(n as real)), rest)
  }

  function ParseItems(s: string): (p: Parsed<seq<Value>>)
    ensures p.Parsed? ==> |p.rest| < |s|
    decreases |s|, 0
  {
    if s == [] then Failed
    else if s[0] == ']' then Parsed([], s[1..])
    else if s[0] == ',' then
      var (first, rest) :- ParseValue(s[1..]);
      var (more, end) :- ParseItems(rest);
      Parsed([first] + more, end)
    else Failed
  }

  function ParseField(s: string): (p: Parsed<Field>)
    ensures p.Parsed? ==> |p.rest| < |s|
    decreases |s|, 2
  {
    if s == [] || s[0] != '"' then Failed
    else
      var (key, rest) :- ParseChars(s[1..]);
      if rest == [] || rest[0] != ':' then Failed
      else
        var (value, end) :- ParseValue(rest[1..]);
        Parsed(Field(key, value), end)
  }

  function ParseFields(s: string): (p: Parsed<seq<Field>>)
    ensures p.Parsed? ==> |p.rest| < |s|
    decreases |s|, 0
  {
    if s == [] then Failed
    else if s[0] == '}' then Parsed([], s[1..])
    else if s[0] == ',' then
      var (first, rest) :- ParseField(s[1..]);
      var (more, end) :- ParseFields(rest);
      Parsed([first] + more, end)
    else Failed
  }

  // ----- round trips --------------------------------------------------------

  lemma ParseEscapedChar(c: char, tail: string)
    ensures EscapeChar(c) != [] && EscapeChar(c)[0] != '"'
    ensures ParseChar(EscapeChar(c) + tail) == Parsed(c, tail)
  {
    var s := EscapeChar(c) + tail;
    if |EscapeChar(c)| == 1 {
      assert s[1..] == tail;
    } else if |EscapeChar(c)| == 2 {
      assert s[2..] == tail;
    } else {
      assert s[..4] == "\\u00" && s[6..] == tail;
      assert HexValue(s[4]) == c as int / 16 && HexValue(s[5]) == c as int % 16;
    }
  }

  /** No text that reads as a character is shorter than the escape that is printed for it. */
  lemma ShortestEscape(c: char, e: string)
    requires ParseChar(e) == Parsed(c, "")
    ensures |EscapeChar(c)| <= |e|
  {
  }

  /** Taking the first character off a concatenation. */
  lemma Unwrap(c: string, a: string, b: string, rest: string)
    requires |c| == 1
    ensures var s := c + a + b + rest;
            s[1..] == a + (b + rest) && s[0] == c[0] && (a != [] ==> |s| > 1 && s[1] == a[0])
  {
  }

  lemma Reassociate(a: string, b: string, c: string)
    ensures (a + b) + c == a + (b + c)
  {
  }

  lemma ParseCharsStep(s: string, c: char, rest: string, t: string, end: string)
    requires s != [] && s[0] != '"' && ParseChar(s) == Parsed(c, rest) && ParseChars(rest) == Parsed(t, end)
    ensures ParseChars(s) == Parsed([c] + t, end)
  {
  }

  lemma {:induction false} ParseEscaped(t: string, tail: string)
    requires tail != [] && tail[0] == '"'
    ensures ParseChars(Escape(t) + tail) == Parsed(t, tail[1..])
  {
    if t == [] {
      assert Escape(t) + tail == tail;
    } else {
      var after := Escape(t[1..]) + tail;
      ParseEscapedChar(t[0], after);
      Reassociate(EscapeChar(t[0]), Escape(t[1..]), tail);
      ParseEscaped(t[1..], tail);
      ParseCharsStep(EscapeChar(t[0]) + after, t[0], after, t[1..], tail[1..]);
      assert t == [t[0]] + t[1..];
    }
  }

  /** What follows a number must not look like more of it. */
  predicate Ends(rest: string)
  {
    rest == [] || !IsDigit(rest[0])
  }

  lemma ParsePrintedNat(n: nat, rest: string)
    requires Ends(rest)
    ensures ParseNat(Digits(n) + rest) == Parsed(n, rest)
  {
    DigitPrefixOf(Digits(n), rest);
    ValueOfDigits(n);
  }

  lemma PrintIntStart(n: int)
    ensures PrintInt(n) != [] && (PrintInt(n)[0] == '-' || IsDigit(PrintInt(n)[0]))
  {
  }

  lemma ParseMinus(s: string, n: nat, rest: string)
    requires s != [] && s[0] == '-' && ParseNat(s[1..]) == Parsed(n, rest)
    ensures ParseInt(s) == Parsed(-(n as int), rest)
  {
  }

  lemma ParseNoMinus(s: string, n: nat, rest: string)
    requires s != [] && s[0] != '-' && ParseNat(s) == Parsed(n, rest)
    ensures ParseInt(s) == Parsed(n as int, rest)
  {
  }

  lemma ParsePrintedInt(n: int, rest: string)
    requires Ends(rest)
    ensures ParseInt(PrintInt(n) + rest) == Parsed(n, rest)
  {
    if n < 0 {
      var digits := Digits(-n);
      ParsePrintedNat(-n, rest);
      AfterMinus(digits, rest);
      ParseMinus(("-" + digits) + rest, -n, rest);
    } else {
      var digits := Digits(n);
      ParsePrintedNat(n, rest);
      assert (digits + rest)[0] == digits[0];
      ParseNoMinus(digits + rest, n, rest);
    }
  }

  lemma AfterMinus(digits: string, rest: string)
    ensures var s := ("-" + digits) + rest;
            s[0] == '-' && s[1..] == digits + rest
  {
  }

  lemma ParseQuoted(t: string, rest: string)
    ensures var s := Quote(t) + rest;
            s[0] == '"' && ParseChars(s[1..]) == Parsed(t, rest)
  {
    Unwrap("\"", Escape(t), "\"", rest);
    ParseEscaped(t, "\"" + rest);
    assert ("\"" + rest)[1..] == rest;
  }

  lemma MoreItemsStart(items: seq<Value>, rest: string)
    requires PlainItems(items)
    ensures MoreItems(items) != [] && Ends(MoreItems(items) + rest)
  {
  }

  lemma MoreFieldsStart(fields: seq<Field>, rest: string)
    requires PlainFields(fields)
    ensures MoreFields(fields) != [] && Ends(MoreFields(fields) + rest)
  {
  }

  lemma ParseNumber(n: int, rest: string)
    requires Ends(rest)
    ensures ParseValue(PrintInt(n) + rest) == Parsed(Num(Finite(n as real)), rest)
  {
    ParsePrintedInt(n, rest);
    PrintIntStart(n);
    var s := PrintInt(n) + rest;
    assert s[0] == PrintInt(n)[0];
  }

  lemma ParseString(t: string, rest: string)
    ensures ParseValue(Quote(t) + rest) == Parsed(Str(t), rest)
  {
    ParseQuoted(t, rest);
  }

  /** A printed value does not begin with a bracket that closes. */
  lemma StringifyStart(v: Value, rest: string)
    requires Plain(v)
    ensures Stringify(v) != [] && (Stringify(v) + rest)[0] != ']'
  {
    if v.Num? {
      PrintIntStart(v.n.r.Floor);
    }
  }

  lemma ArrayStep(s: string, items: seq<Value>, mid: string, end: string)
    requires items != [] && |s| > 1 && s[0] == '[' && s[1] != ']'
    requires ParseValue(s[1..]) == Parsed(items[0], mid) && ParseItems(mid) == Parsed(items[1..], end)
    ensures ParseValue(s) == Parsed(Arr(items), end)
  {
    assert items == [items[0]] + items[1..];
  }

  lemma ItemsStep(s: string, items: seq<Value>, mid: string, end: string)
    requires items != [] && s != [] && s[0] == ','
    requires ParseValue(s[1..]) == Parsed(items[0], mid) && ParseItems(mid) == Parsed(items[1..], end)
    ensures ParseItems(s) == Parsed(items, end)
  {
    assert items == [items[0]] + items[1..];
  }

  lemma ObjectStep(s: string, fields: seq<Field>, mid: string, end: string)
    requires fields != [] && |s| > 1 && s[0] == '{' && s[1] != '}'
    requires ParseField(s[1..]) == Parsed(fields[0], mid) && ParseFields(mid) == Parsed(fields[1..], end)
    ensures ParseValue(s) == Parsed(Obj(fields), end)
  {
    assert fields == [fields[0]] + fields[1..];
  }

  lemma FieldsStep(s: string, fields: seq<Field>, mid: string, end: string)
    requires fields != [] && s != [] && s[0] == ','
    requires ParseField(s[1..]) == Parsed(fields[0], mid) && ParseFields(mid) == Parsed(fields[1..], end)
    ensures ParseFields(s) == Parsed(fields, end)
  {
    assert fields == [fields[0]] + fields[1..];
  }

  lemma FieldStep(s: string, key: string, mid: string, value: Value, end: string)
    requires s != [] && s[0] == '"' && ParseChars(s[1..]) == Parsed(key, mid)
    requires mid != [] && mid[0] == ':' && ParseValue(mid[1..]) == Parsed(value, end)
    ensures ParseField(s) == Parsed(Field(key, value), end)
  {
  }

  lemma ParseWords(rest: string)
    ensures ParseValue("null" + rest) == Parsed(Null, rest)
    ensures ParseValue("true" + rest) == Parsed(Bool(true), rest)
    ensures ParseValue("false" + rest) == Parsed(Bool(false), rest)
    ensures ParseValue("[]" + rest) == Parsed(Arr([]), rest)
    ensures ParseValue("{}" + rest) == Parsed(Obj([]), rest)
  {
    assert "null" <= "null" + rest && ("null" + rest)[4..] == rest;
    assert "true" <= "true" + rest && ("true" + rest)[4..] == rest && ("true" + rest)[0] == 't';
    assert "false" <= "false" + rest && ("false" + rest)[5..] == rest && ("false" + rest)[0] == 'f';
    assert ("[]" + rest)[2..] == rest && ("{}" + rest)[2..] == rest;
  }

  /** Reading back what was printed gives the value printed, and leaves what follows it. */
  lemma {:induction false} ParseStringified(v: Value, rest: string)
    requires Plain(v) && (v.Num? ==> Ends(rest))
    ensures ParseValue(Stringify(v) + rest) == Parsed(v, rest)
    decreases v, 1
  {
    match v
    case Null => ParseWords(rest);
    case Bool(b) => ParseWords(rest);
    case Num(n) => ParseNumber(n.r.Floor, rest);
    case Str(t) => ParseString(t, rest);
    case Arr(items) => ParseArray(items, rest);
    case Obj(fields) => ParseObject(fields, rest);
  }

  lemma {:induction false} ParseArray(items: seq<Value>, rest: string)
    requires Plain(Arr(items))
    ensures ParseValue(Stringify(Arr(items)) + rest) == Parsed(Arr(items), rest)
    decreases items, 1
  {
    if items == [] {
      ParseWords(rest);
    } else {
      var after := MoreItems(items[1..]) + rest;
      Unwrap("[", Stringify(items[0]), MoreItems(items[1..]), rest);
      ParseOneItem(items, rest);
      StringifyStart(items[0], after);
      ArrayStep(Stringify(Arr(items)) + rest, items, after, rest);
    }
  }

  lemma {:induction false} ParseObject(fields: seq<Field>, rest: string)
    requires Plain(Obj(fields))
    ensures ParseValue(Stringify(Obj(fields)) + rest) == Parsed(Obj(fields), rest)
    decreases fields, 1
  {
    if fields == [] {
      ParseWords(rest);
    } else {
      var after := MoreFields(fields[1..]) + rest;
      Unwrap("{", StringifyField(fields[0]), MoreFields(fields[1..]), rest);
      ParseOneField(fields, rest);
      ParseStringifiedField(fields[0], ",");
      ObjectStep(Stringify(Obj(fields)) + rest, fields, after, rest);
    }
  }

  /** The first item, and the rest of the list behind it. */
  lemma {:induction false} ParseOneItem(items: seq<Value>, rest: string)
    requires PlainItems(items) && items != []
    ensures var after := MoreItems(items[1..]) + rest;
            && ParseValue(Stringify(items[0]) + after) == Parsed(items[0], after)
            && ParseItems(after) == Parsed(items[1..], rest)
    decreases items, 0
  {
    MoreItemsStart(items[1..], rest);
    ParseStringified(items[0], MoreItems(items[1..]) + rest);
    var s := MoreItems(items[1..]) + rest;
    if |items| == 1 {
      assert s[1..] == rest;
    } else {
      var tail := items[1..];
      var after := MoreItems(tail[1..]) + rest;
      Unwrap(",", Stringify(tail[0]), MoreItems(tail[1..]), rest);
      ParseOneItem(tail, rest);
      ItemsStep(s, tail, after, rest);
    }
  }

  lemma {:induction false} ParseStringifiedField(field: Field, rest: string)
    requires Plain(field.value) && Ends(rest)
    ensures ParseField(StringifyField(field) + rest) == Parsed(field, rest)
    ensures StringifyField(field)[0] == '"'
    decreases field, 2
  {
    var value := Stringify(field.value);
    var after := ":" + value + rest;
    FieldPieces(Quote(field.key), value, rest);
    ParseQuoted(field.key, after);
    ParseStringified(field.value, rest);
    FieldStep(Quote(field.key) + after, field.key, after, field.value, rest);
  }

  lemma FieldPieces(key: string, value: string, rest: string)
    ensures (key + ":" + value) + rest == key + (":" + value + rest)
    ensures (":" + value + rest)[1..] == value + rest
  {
  }

  lemma {:induction false} ParseOneField(fields: seq<Field>, rest: string)
    requires PlainFields(fields) && fields != []
    ensures var after := MoreFields(fields[1..]) + rest;
            && ParseField(StringifyField(fields[0]) + after) == Parsed(fields[0], after)
            && ParseFields(after) == Parsed(fields[1..], rest)
    decreases fields, 0
  {
    MoreFieldsStart(fields[1..], rest);
    ParseStringifiedField(fields[0], MoreFields(fields[1..]) + rest);
    var s := MoreFields(fields[1..]) + rest;
    if |fields| == 1 {
      assert s[1..] == rest;
    } else {
      var tail := fields[1..];
      var after := MoreFields(tail[1..]) + rest;
      Unwrap(",", StringifyField(tail[0]), MoreFields(tail[1..]), rest);
      ParseOneField(tail, rest);
      FieldsStep(s, tail, after, rest);
    }
  }

  /** Different values print differently. */
  lemma StringifyInjective(a: Value, b: Value)
    requires Plain(a) && Plain(b) && Stringify(a) == Stringify(b)
    ensures a == b
  {
    ParseStringified(a, "");
    ParseStringified(b, "");
    assert Stringify(a) + "" == Stringify(a) && Stringify(b) + "" == Stringify(b);
  }
}
