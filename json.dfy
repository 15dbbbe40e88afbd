/**
 * Query values as Express hands them over (strings, arrays and nested
 * objects — what the query-string parser builds), their JSON text as
 * JSON.stringify writes it, the JSON.parse direction for that text, and the
 * JavaScript string conversion `String(v)` that parseInt applies first.
 */
module Json {
  import opened Wrappers
  import JsString

  datatype JVal = Str(s: string) | Arr(items: seq<JVal>) | Obj(members: seq<Member>)

  /** One own property of an object, in property order. */
  datatype Member = Member(key: string, value: JVal)

  /** Property lookup `o[k]`: the value of the first member named `k`, if any. */
  function Get(ms: seq<Member>, k: string): (r: Option<JVal>)
    ensures r.None? <==> forall i :: 0 <= i < |ms| ==> ms[i].key != k
    ensures r.Some? ==> exists i :: 0 <= i < |ms| && ms[i].key == k && ms[i].value == r.value
  {
    if |ms| == 0 then None
    else if ms[0].key == k then Some(ms[0].value)
    else Get(ms[1..], k)
  }

  function KeySet(ms: seq<Member>): set<string> {
    set i | 0 <= i < |ms| :: ms[i].key
  }

  // ---------------------------------------------------------------------
  // JSON.stringify

  function HexDigit(n: nat): (c: char)
    requires n < 16
  {
    if n < 10 then ('0' as int + n) as char else ('a' as int + n - 10) as char
  }

  /** How JSON.stringify writes one code point inside a string literal. */
  function EscapeChar(c: char): string {
    if c == '"' then "\\\""
    else if c == '\\' then "\\\\"
    else if c as int == 0x08 then "\\b"
    else if c == '\t' then "\\t"
    else if c == '\n' then "\\n"
    else if c as int == 0x0C then "\\f"
    else if c == '\r' then "\\r"
    else if c as int < 0x20 then "\\u00" + [HexDigit(c as int / 16), HexDigit(c as int % 16)]
    else [c]
  }

  function Escape(s: string): string {
    if s == [] then [] else EscapeChar(s[0]) + Escape(s[1..])
  }

  function Quote(s: string): string {
    "\"" + Escape(s) + "\""
  }

  /** JSON.stringify(v), which writes no white space. */
  function Stringify(v: JVal): string
    decreases v
  {
    match v
    case Str(s) => Quote(s)
    case Arr(items) => "[" + StringifyItems(items) + "]"
    case Obj(ms) => "{" + StringifyMembers(ms) + "}"
  }

  function StringifyItems(items: seq<JVal>): string
    decreases items
  {
    if |items| == 0 then ""
    else if |items| == 1 then Stringify(items[0])
    else Stringify(items[0]) + "," + StringifyItems(items[1..])
  }

  function StringifyMember(m: Member): string
    decreases m
  {
    Quote(m.key) + ":" + Stringify(m.value)
  }

  function StringifyMembers(ms: seq<Member>): string
    decreases ms
  {
    if |ms| == 0 then ""
    else if |ms| == 1 then StringifyMember(ms[0])
    else StringifyMember(ms[0]) + "," + StringifyMembers(ms[1..])
  }

  // ---------------------------------------------------------------------
  // JSON.parse, for the white-space-free text of strings, arrays and objects

  function HexValue(c: char): Option<nat> {
    if '0' <= c <= '9' then Some(c as int - '0' as int)
    else if 'a' <= c <= 'f' then Some(c as int - 'a' as int + 10)
    else if 'A' <= c <= 'F' then Some(c as int - 'A' as int + 10)
    else None
  }

  /** The escape after a backslash: the character it stands for and how many characters it takes. */
  function ParseEscape(s: string): (r: Option<(char, nat)>)
    ensures r.Some? ==> 1 <= r.value.1 <= |s|
  {
    if |s| == 0 then None
    else if s[0] == '"' then Some(('"', 1))
    else if s[0] == '\\' then Some(('\\', 1))
    else if s[0] == '/' then Some(('/', 1))
    else if s[0] == 'b' then Some((0x08 as char, 1))
    else if s[0] == 'f' then Some((0x0C as char, 1))
    else if s[0] == 'n' then Some(('\n', 1))
    else if s[0] == 'r' then Some(('\r', 1))
    else if s[0] == 't' then Some(('\t', 1))
    else if s[0] == 'u' && |s| >= 5 then
      match (HexValue(s[1]), HexValue(s[2]), HexValue(s[3]), HexValue(s[4]))
      case (Some(a), Some(b), Some(c), Some(d)) =>
        var n := ((a * 16 + b) * 16 + c) * 16 + d;
        if n < 0xD800 || 0xE000 <= n < 0x11_0000 then Some((n as char, 5)) else None
      case _ => None
    else None
  }

  function Prepend(c: char, r: Option<(string, string)>): Option<(string, string)> {
    match r
    case None => None
    case Some((t, rest)) => Some(([c] + t, rest))
  }

  /** The contents of a string literal whose opening quote is already consumed, and the text after its closing quote. */
  function ParseChars(s: string): (r: Option<(string, string)>)
    ensures r.Some? ==> |r.value.1| < |s|
    decreases |s|
  {
    if |s| == 0 then None
    else if s[0] == '"' then Some(("", s[1..]))
    else if s[0] == '\\' then
      match ParseEscape(s[1..])
      case None => None
      case Some((c, k)) => Prepend(c, ParseChars(s[1 + k..]))
    else if s[0] as int < 0x20 then None
    else Prepend(s[0], ParseChars(s[1..]))
  }

  function ParseValue(s: string): (r: Option<(JVal, string)>)
    ensures r.Some? ==> |r.value.1| < |s|
    decreases |s|, 0
  {
    if |s| == 0 then None
    else if s[0] == '"' then
      match ParseChars(s[1..])
      case None => None
      case Some((t, rest)) => Some((Str(t), rest))
    else if s[0] == '[' then
      if |s| > 1 && s[1] == ']' then Some((Arr([]), s[2..]))
      else
        match ParseItems(s[1..])
        case None => None
        case Some((items, rest)) => Some((Arr(items), rest))
    else if s[0] == '{' then
      if |s| > 1 && s[1] == '}' then Some((Obj([]), s[2..]))
      else
        match ParseMembers(s[1..])
        case None => None
        case Some((ms, rest)) => Some((Obj(ms), rest))
    else None
  }

  /** `value (',' value)* ']'`. */
  function ParseItems(s: string): (r: Option<(seq<JVal>, string)>)
    ensures r.Some? ==> |r.value.1| < |s|
    decreases |s|, 1
  {
    match ParseValue(s)
    case None => None
    case Some((v, rest)) =>
      if |rest| > 0 && rest[0] == ']' then Some(([v], rest[1..]))
      else if |rest| > 0 && rest[0] == ',' then
        match ParseItems(rest[1..])
        case None => None
        case Some((vs, rest')) => Some(([v] + vs, rest'))
      else None
  }

  /** `string ':' value (',' string ':' value)* '}'`. */
  function ParseMembers(s: string): (r: Option<(seq<Member>, string)>)
    ensures r.Some? ==> |r.value.1| < |s|
    decreases |s|, 1
  {
    if |s| == 0 || s[0] != '"' then None
    else
      match ParseChars(s[1..])
      case None => None
      case Some((k, afterKey)) =>
        if |afterKey| == 0 || afterKey[0] != ':' then None
        else
          match ParseValue(afterKey[1..])
          case None => None
          case Some((v, rest)) =>
            if |rest| > 0 && rest[0] == '}' then Some(([Member(k, v)], rest[1..]))
            else if |rest| > 0 && rest[0] == ',' then
              match ParseMembers(rest[1..])
              case None => None
              case Some((ms, rest')) => Some(([Member(k, v)] + ms, rest'))
            else None
  }

  /** JSON.parse: None where JavaScript throws a SyntaxError. */
  function Parse(text: string): Option<JVal> {
    match ParseValue(text)
    case Some((v, rest)) => if rest == "" then Some(v) else None
    case None => None
  }

  // ---------------------------------------------------------------------
  // Round trip: JSON.parse(JSON.stringify(v)) gives back v

  lemma HexRoundTrip(n: nat)
    requires n < 16
    ensures HexValue(HexDigit(n)) == Some(n)
  {
  }

  lemma EscapeCharRoundTrip(c: char, rest: string)
    ensures ParseChars(EscapeChar(c) + rest) == Prepend(c, ParseChars(rest))
  {
    if c == '"' || c == '\\' || c as int == 0x08 || c == '\t' || c == '\n' || c as int == 0x0C || c == '\r' {
      ShortEscapeRoundTrip(c, rest);
    } else if c as int < 0x20 {
      UnicodeEscapeRoundTrip(c, rest);
    } else {
      var s := EscapeChar(c) + rest;
      assert s[0] == c && s[1..] == rest;
    }
  }

  lemma ShortEscapeRoundTrip(c: char, rest: string)
    requires c == '"' || c == '\\' || c as int == 0x08 || c == '\t' || c == '\n' || c as int == 0x0C || c == '\r'
    ensures ParseChars(EscapeChar(c) + rest) == Prepend(c, ParseChars(rest))
  {
    var s := EscapeChar(c) + rest;
    assert s[0] == '\\' && s[1..][1..] == rest;
  }

  lemma UnicodeEscapeRoundTrip(c: char, rest: string)
    requires c as int < 0x20 && !(c as int == 0x08 || c == '\t' || c == '\n' || c as int == 0x0C || c == '\r')
    ensures ParseChars(EscapeChar(c) + rest) == Prepend(c, ParseChars(rest))
  {
    var s := EscapeChar(c) + rest;
    var hi, lo := c as int / 16, c as int % 16;
    HexRoundTrip(hi);
    HexRoundTrip(lo);
    assert s[0] == '\\' && s[1..][..5] == "u00" + [HexDigit(hi), HexDigit(lo)];
    assert ParseEscape(s[1..]) == Some((c, 5));
    assert s[6..] == rest;
  }

  lemma {:induction false} EscapeRoundTrip(t: string, rest: string)
    ensures ParseChars(Escape(t) + "\"" + rest) == Some((t, rest))
  {
    if t == [] {
      assert Escape(t) + "\"" + rest == "\"" + rest;
    } else {
      EscapeRoundTrip(t[1..], rest);
      EscapeCharRoundTrip(t[0], Escape(t[1..]) + "\"" + rest);
      assert Escape(t) + "\"" + rest == EscapeChar(t[0]) + (Escape(t[1..]) + "\"" + rest);
      assert [t[0]] + t[1..] == t;
    }
  }

  lemma QuoteRoundTrip(t: string, rest: string)
    ensures ParseValue(Quote(t) + rest) == Some((Str(t), rest))
  {
    var s := Quote(t) + rest;
    assert s[1..] == Escape(t) + "\"" + rest;
    EscapeRoundTrip(t, rest);
  }

  lemma {:induction false} ValueRoundTrip(v: JVal, rest: string)
    ensures ParseValue(Stringify(v) + rest) == Some((v, rest))
    decreases v, 3
  {
    match v
    case Str(t) => QuoteRoundTrip(t, rest);
    case Arr(items) => ArrRoundTrip(items, rest);
    case Obj(ms) => ObjRoundTrip(ms, rest);
  }

  /** The text of a value starts with '"', '[' or '{'. */
  lemma StartsWithOpener(v: JVal)
    ensures |Stringify(v)| > 0 && Stringify(v)[0] in {'"', '[', '{'}
  {
  }

  /** An array literal that is not `[]`: its items are read after the '['. */
  lemma ArrOpen(s: string)
    requires |s| > 1 && s[0] == '[' && s[1] != ']'
    ensures ParseValue(s) == match ParseItems(s[1..])
                             case None => None
                             case Some((items, rest)) => Some((Arr(items), rest))
  {
  }

  /** An object literal that is not `{}`: its members are read after the '{'. */
  lemma ObjOpen(s: string)
    requires |s| > 1 && s[0] == '{' && s[1] != '}'
    ensures ParseValue(s) == match ParseMembers(s[1..])
                             case None => None
                             case Some((ms, rest)) => Some((Obj(ms), rest))
  {
  }

  lemma {:induction false} ArrRoundTrip(items: seq<JVal>, rest: string)
    ensures ParseValue(Stringify(Arr(items)) + rest) == Some((Arr(items), rest))
    decreases items, 2
  {
    if |items| == 0 {
      EmptyArrRoundTrip(rest);
    } else {
      ItemsRoundTrip(items, rest);
      StartsWithOpener(items[0]);
      ItemsText(items, rest);
      ArrWrap(items, rest);
    }
  }

  lemma EmptyArrRoundTrip(rest: string)
    ensures ParseValue(Stringify(Arr([])) + rest) == Some((Arr([]), rest))
  {
    var s := Stringify(Arr([])) + rest;
    assert StringifyItems([]) == "";
    assert s == "[]" + rest;
    assert s[2..] == rest;
  }

  /** The text of a non-empty array is '[' and then what ParseItems reads. */
  lemma ArrWrap(items: seq<JVal>, rest: string)
    requires |items| >= 1
    requires var body := StringifyItems(items) + "]" + rest; body != [] && body[0] != ']'
    ensures var body := StringifyItems(items) + "]" + rest;
            ParseValue(Stringify(Arr(items)) + rest) == match ParseItems(body)
                                                        case None => None
                                                        case Some((vs, r)) => Some((Arr(vs), r))
  {
    var body := StringifyItems(items) + "]" + rest;
    var s := Stringify(Arr(items)) + rest;
    assert s == "[" + body;
    assert s[1..] == body;
    ArrOpen(s);
  }

  lemma {:induction false} ObjRoundTrip(ms: seq<Member>, rest: string)
    ensures ParseValue(Stringify(Obj(ms)) + rest) == Some((Obj(ms), rest))
    decreases ms, 2
  {
    if |ms| == 0 {
      EmptyObjRoundTrip(rest);
    } else {
      MembersRoundTrip(ms, rest);
      MembersText(ms, rest);
      ObjWrap(ms, rest);
    }
  }

  lemma EmptyObjRoundTrip(rest: string)
    ensures ParseValue(Stringify(Obj([])) + rest) == Some((Obj([]), rest))
  {
    var s := Stringify(Obj([])) + rest;
    assert StringifyMembers([]) == "";
    assert s == "{}" + rest;
    assert s[2..] == rest;
  }

  /** The text of a non-empty object is '{' and then what ParseMembers reads. */
  lemma ObjWrap(ms: seq<Member>, rest: string)
    requires |ms| >= 1
    requires var body := StringifyMembers(ms) + "}" + rest; body != [] && body[0] != '}'
    ensures var body := StringifyMembers(ms) + "}" + rest;
            ParseValue(Stringify(Obj(ms)) + rest) == match ParseMembers(body)
                                                     case None => None
                                                     case Some((m, r)) => Some((Obj(m), r))
  {
    var body := StringifyMembers(ms) + "}" + rest;
    var s := Stringify(Obj(ms)) + rest;
    assert s == "{" + body;
    assert s[1..] == body;
    ObjOpen(s);
  }

  function ConsItem(v: JVal, r: Option<(seq<JVal>, string)>): Option<(seq<JVal>, string)> {
    match r
    case None => None
    case Some((vs, rest)) => Some(([v] + vs, rest))
  }

  /** One step of ParseItems, given what its first value parses to. */
  lemma ItemsStep(s: string, v: JVal, after: string)
    requires ParseValue(s) == Some((v, after)) && |after| > 0
    ensures after[0] == ']' ==> ParseItems(s) == Some(([v], after[1..]))
    ensures after[0] == ',' ==> ParseItems(s) == ConsItem(v, ParseItems(after[1..]))
  {
  }

  lemma ItemsText(items: seq<JVal>, rest: string)
    requires |items| >= 1
    ensures |items| == 1 ==> StringifyItems(items) + "]" + rest == Stringify(items[0]) + ("]" + rest)
    ensures |items| > 1 ==>
      StringifyItems(items) + "]" + rest == Stringify(items[0]) + ("," + (StringifyItems(items[1..]) + "]" + rest))
  {
    var a := Stringify(items[0]);
    if |items| == 1 {
      assert StringifyItems(items) == a;
      Assoc3(a, "]", rest);
    } else {
      var b := StringifyItems(items[1..]);
      assert StringifyItems(items) == a + "," + b;
      Assoc5(a, ",", b, "]", rest);
    }
  }

  /** The last item, then the closing bracket. */
  lemma ItemsLast(v: JVal, rest: string)
    ensures ParseItems(Stringify(v) + ("]" + rest)) == Some(([v], rest))
    decreases v, 4
  {
    var after := "]" + rest;
    ValueRoundTrip(v, after);
    ItemsStep(Stringify(v) + after, v, after);
    assert after[1..] == rest;
  }

  /** An item, a comma, and the items after it. */
  lemma ItemsCons(v: JVal, tailText: string)
    ensures ParseItems(Stringify(v) + ("," + tailText)) == ConsItem(v, ParseItems(tailText))
    decreases v, 4
  {
    var after := "," + tailText;
    ValueRoundTrip(v, after);
    ItemsStep(Stringify(v) + after, v, after);
    assert after[1..] == tailText;
  }

  lemma {:induction false} ItemsRoundTrip(items: seq<JVal>, rest: string)
    requires |items| >= 1
    ensures ParseItems(StringifyItems(items) + "]" + rest) == Some((items, rest))
    decreases items, 0
  {
    ItemsText(items, rest);
    if |items| == 1 {
      ItemsLast(items[0], rest);
      assert [items[0]] == items;
    } else {
      ItemsRoundTrip(items[1..], rest);
      ItemsCons(items[0], StringifyItems(items[1..]) + "]" + rest);
      assert [items[0]] + items[1..] == items;
    }
  }

  /** Reading one `"key":value` member back, up to the text that follows it. */
  lemma {:induction false} MemberRoundTrip(m: Member, after: string)
    ensures var s := StringifyMember(m) + after;
      |s| > 0 && s[0] == '"' &&
      ParseChars(s[1..]) == Some((m.key, ":" + Stringify(m.value) + after)) &&
      ParseValue(Stringify(m.value) + after) == Some((m.value, after))
    decreases m, 1
  {
    var tail := ":" + Stringify(m.value) + after;
    var q := Escape(m.key);
    var s := StringifyMember(m) + after;
    assert s == "\"" + (q + "\"" + tail);
    assert s[1..] == q + "\"" + tail;
    EscapeRoundTrip(m.key, tail);
    ValueRoundTrip(m.value, after);
  }

  function ConsMember(m: Member, r: Option<(seq<Member>, string)>): Option<(seq<Member>, string)> {
    match r
    case None => None
    case Some((ms, rest)) => Some(([m] + ms, rest))
  }

  /** One step of ParseMembers, given what the key and the value parse to. */
  lemma MembersStep(s: string, key: string, afterKey: string, v: JVal, after: string)
    requires |s| > 0 && s[0] == '"' && ParseChars(s[1..]) == Some((key, afterKey))
    requires |afterKey| > 0 && afterKey[0] == ':' && ParseValue(afterKey[1..]) == Some((v, after))
    requires |after| > 0
    ensures after[0] == '}' ==> ParseMembers(s) == Some(([Member(key, v)], after[1..]))
    ensures after[0] == ',' ==> ParseMembers(s) == ConsMember(Member(key, v), ParseMembers(after[1..]))
  {
  }

  lemma MembersText(ms: seq<Member>, rest: string)
    requires |ms| >= 1
    ensures |ms| == 1 ==> StringifyMembers(ms) + "}" + rest == StringifyMember(ms[0]) + ("}" + rest)
    ensures |ms| > 1 ==>
      StringifyMembers(ms) + "}" + rest == StringifyMember(ms[0]) + ("," + (StringifyMembers(ms[1..]) + "}" + rest))
    ensures (StringifyMembers(ms) + "}" + rest)[0] == '"'
  {
    var a := StringifyMember(ms[0]);
    assert a == "\"" + Escape(ms[0].key) + "\"" + ":" + Stringify(ms[0].value);
    assert a[0] == '"';
    if |ms| == 1 {
      assert StringifyMembers(ms) == a;
      Assoc3(a, "}", rest);
    } else {
      var b := StringifyMembers(ms[1..]);
      assert StringifyMembers(ms) == a + "," + b;
      Assoc5(a, ",", b, "}", rest);
    }
  }

  /** Two texts that are the same prefix followed by equal rests are equal. */
  lemma SamePrefix(x: string, y: string, p: string, a: string, b: string)
    requires x == p + a && y == p + b && a == b
    ensures x == y
  {
  }

  lemma Assoc3(a: string, b: string, c: string)
    ensures a + b + c == a + (b + c)
  {
  }

  lemma Assoc5(a: string, b: string, c: string, d: string, e: string)
    ensures a + b + c + d + e == a + (b + (c + d + e))
  {
  }

  /** The last member, then the closing brace. */
  lemma MembersLast(m: Member, rest: string)
    ensures ParseMembers(StringifyMember(m) + ("}" + rest)) == Some(([m], rest))
    decreases m, 2
  {
    var after := "}" + rest;
    var s := StringifyMember(m) + after;
    MemberRoundTrip(m, after);
    var afterKey := ":" + Stringify(m.value) + after;
    assert afterKey[1..] == Stringify(m.value) + after;
    MembersStep(s, m.key, afterKey, m.value, after);
    assert after[1..] == rest;
  }

  /** A member, a comma, and the members after it. */
  lemma MembersCons(m: Member, tailText: string)
    ensures ParseMembers(StringifyMember(m) + ("," + tailText)) == ConsMember(m, ParseMembers(tailText))
    decreases m, 2
  {
    var after := "," + tailText;
    var s := StringifyMember(m) + after;
    MemberRoundTrip(m, after);
    var afterKey := ":" + Stringify(m.value) + after;
    assert afterKey[1..] == Stringify(m.value) + after;
    MembersStep(s, m.key, afterKey, m.value, after);
    assert after[1..] == tailText;
  }

  lemma {:induction false} MembersRoundTrip(ms: seq<Member>, rest: string)
    requires |ms| >= 1
    ensures ParseMembers(StringifyMembers(ms) + "}" + rest) == Some((ms, rest))
    decreases ms, 0
  {
    MembersText(ms, rest);
    if |ms| == 1 {
      MembersLast(ms[0], rest);
      assert [ms[0]] == ms;
    } else {
      MembersRoundTrip(ms[1..], rest);
      MembersCons(ms[0], StringifyMembers(ms[1..]) + "}" + rest);
      assert [ms[0]] + ms[1..] == ms;
    }
  }

  /** JSON.parse(JSON.stringify(v)) is v. */
  lemma ParseStringify(v: JVal)
    ensures Parse(Stringify(v)) == Some(v)
  {
    ValueRoundTrip(v, "");
    assert Stringify(v) + "" == Stringify(v);
  }

  // ---------------------------------------------------------------------
  // String(v)

  /**
   * JavaScript's string conversion of a query value: a string is itself, an
   * array is its elements' conversions joined with ",", an object is
   * "[object Object]".
   */
  function ToJsString(v: JVal): string
    decreases v
  {
    match v
    case Str(s) => s
    case Arr(items) => JoinConverted(items)
    case Obj(_) => "[object Object]"
  }

  function JoinConverted(items: seq<JVal>): string
    decreases items
  {
    if |items| == 0 then ""
    else if |items| == 1 then ToJsString(items[0])
    else ToJsString(items[0]) + "," + JoinConverted(items[1..])
  }

  /** The undefined value (an absent property) converts to "undefined". */
  function OptionToJsString(v: Option<JVal>): string {
    match v
    case None => "undefined"
    case Some(x) => ToJsString(x)
  }
}
