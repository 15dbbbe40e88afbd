/**
 * Page and limit of a list query: `parseInt(value, 10) || default`, the
 * window (page - 1) * limit .. page * limit, and the next/prev descriptor.
 * JavaScript numbers are modelled as unbounded integers.
 */
module Paging {
  import opened Wrappers
  import JsString
  import Json

  predicate IsDigit(c: char) {
    '0' <= c <= '9'
  }

  predicate AllDigits(d: string) {
    forall i :: 0 <= i < |d| ==> IsDigit(d[i])
  }

  /** The length of the run of decimal digits at the start of t. */
  function DigitRun(t: string): (k: nat)
    ensures k <= |t| && AllDigits(t[..k])
    ensures k < |t| ==> !IsDigit(t[k])
  {
    if t != [] && IsDigit(t[0]) then
      var k := DigitRun(t[1..]);
      assert t[..k + 1] == [t[0]] + t[1..][..k];
      k + 1
    else 0
  }

  /** The number a string of decimal digits denotes, most significant first. */
  function DigitsValue(d: string): nat
    requires AllDigits(d)
  {
    if d == [] then 0 else DigitsValue(d[..|d| - 1]) * 10 + (d[|d| - 1] as int - '0' as int)
  }

  /**
   * parseInt(s, 10), None standing for NaN: white space is skipped, then one
   * optional sign, then the longest run of decimal digits; anything after it
   * is ignored, and no digits at all is NaN.
   */
  function ParseInt(s: string): Option<int> {
    ParseSigned(s[JsString.LeadingWhite(s)..])
  }

  /** parseInt after the white space: one optional sign, then the digits. */
  function ParseSigned(t: string): Option<int> {
    var negative := t != [] && t[0] == '-';
    var u := if t != [] && (t[0] == '-' || t[0] == '+') then t[1..] else t;
    var k := DigitRun(u);
    var magnitude: int := DigitsValue(u[..k]);
    if k == 0 then None
    else if negative then Some(-magnitude)
    else Some(magnitude)
  }

  /**
   * `parseInt(req.query[name], 10) || default`: the query value converted to
   * a string first (absent is "undefined"), and NaN or zero replaced by the
   * default. Negative numbers are kept.
   */
  function NumberOr(v: Option<Json.JVal>, default: int): (n: int)
    ensures n == default || n != 0
    ensures ParseInt(Json.OptionToJsString(v)).Some? && ParseInt(Json.OptionToJsString(v)).value != 0
            ==> n == ParseInt(Json.OptionToJsString(v)).value
    ensures ParseInt(Json.OptionToJsString(v)) in {None, Some(0)} ==> n == default
  {
    match ParseInt(Json.OptionToJsString(v))
    case None => default
    case Some(p) => if p == 0 then default else p
  }

  const DefaultPage := 1
  const DefaultLimit := 25

  function Page(v: Option<Json.JVal>): int {
    NumberOr(v, DefaultPage)
  }

  function Limit(v: Option<Json.JVal>): int {
    NumberOr(v, DefaultLimit)
  }

  function StartIndex(page: int, limit: int): int {
    (page - 1) * limit
  }

  function EndIndex(page: int, limit: int): int {
    page * limit
  }

  datatype PageRef = PageRef(page: int, limit: int)

  /** The `pagination` object: each of `next` and `prev` may be missing. */
  datatype Pagination = Pagination(next: Option<PageRef>, prev: Option<PageRef>)

  /** The descriptor the pipeline promises for a page, a limit and a total. */
  ghost predicate Describes(p: Pagination, page: int, limit: int, total: int) {
    && (p.next.Some? <==> EndIndex(page, limit) < total)
    && (p.next.Some? ==> p.next.value == PageRef(page + 1, limit))
    && (p.prev.Some? <==> StartIndex(page, limit) > 0)
    && (p.prev.Some? ==> p.prev.value == PageRef(page - 1, limit))
  }

  /** Builds `pagination` as the source does: start from `{}` and add `next`, then `prev`. */
  method BuildPagination(page: int, limit: int, total: int) returns (p: Pagination)
    ensures Describes(p, page, limit, total)
  {
    p := Pagination(None, None);
    var startIndex := StartIndex(page, limit);
    var endIndex := EndIndex(page, limit);
    if endIndex < total {
      p := p.(next := Some(PageRef(page + 1, limit)));
    }
    if startIndex > 0 {
      p := p.(prev := Some(PageRef(page - 1, limit)));
    }
  }

  /** The descriptor as a value, for the functions that cannot call the method. */
  function Descriptor(page: int, limit: int, total: int): (p: Pagination)
    ensures Describes(p, page, limit, total)
  {
    Pagination(
      if EndIndex(page, limit) < total then Some(PageRef(page + 1, limit)) else None,
      if StartIndex(page, limit) > 0 then Some(PageRef(page - 1, limit)) else None)
  }

  /** There is only one descriptor: the method and the function agree. */
  lemma DescriptorUnique(p: Pagination, page: int, limit: int, total: int)
    requires Describes(p, page, limit, total)
    ensures p == Descriptor(page, limit, total)
  {
  }

  // ---------------------------------------------------------------------
  // Windows and descriptors

  /** Consecutive pages have adjacent windows of `limit` items each. */
  lemma WindowsAdjacent(page: int, limit: int)
    ensures EndIndex(page, limit) - StartIndex(page, limit) == limit
    ensures StartIndex(page + 1, limit) == EndIndex(page, limit)
  {
  }

  /** For a positive page and limit, `prev` is there exactly from page 2 on. */
  lemma PrevIffPastFirst(page: int, limit: int, total: int)
    requires page >= 1 && limit >= 1
    ensures Descriptor(page, limit, total).prev.Some? <==> page >= 2
  {
    if page >= 2 {
      assert (page - 1) * limit >= limit by {
        MulMonotone(page - 1, 1, limit);
      }
    }
  }

  lemma MulMonotone(a: int, b: int, c: int)
    requires a >= b && c >= 0
    ensures a * c >= b * c
  {
  }

  /** For a positive limit, `next` is there exactly while items remain past the window. */
  lemma NextIffItemsRemain(page: int, limit: int, total: int)
    requires limit >= 1
    ensures Descriptor(page, limit, total).next.Some? <==> page * limit < total
  {
  }

  /** Page 1 of 0 items has neither neighbour; a zero or negative page has only `next`. */
  lemma NoNeighboursWhenEmpty(limit: int)
    requires limit >= 1
    ensures Descriptor(1, limit, 0) == Pagination(None, None)
    ensures Descriptor(0, limit, 5).prev.None? && Descriptor(0, limit, 5).next.Some?
  {
  }

  /** Thirty items in pages of ten. */
  lemma ThirtyByTen()
    ensures Descriptor(1, 10, 30) == Pagination(Some(PageRef(2, 10)), None)
    ensures Descriptor(2, 10, 30) == Pagination(Some(PageRef(3, 10)), Some(PageRef(1, 10)))
    ensures Descriptor(3, 10, 30) == Pagination(None, Some(PageRef(2, 10)))
  {
  }

  // ---------------------------------------------------------------------
  // parseInt

  lemma DigitRunOfDigitsThen(d: string, rest: string)
    requires AllDigits(d) && (rest == [] || !IsDigit(rest[0]))
    ensures DigitRun(d + rest) == |d| && (d + rest)[..|d|] == d
  {
    if d != [] {
      assert (d + rest)[1..] == d[1..] + rest;
      DigitRunOfDigitsThen(d[1..], rest);
    } else {
      assert d + rest == rest;
    }
  }

  lemma {:induction false} DecimalValue(n: nat)
    ensures DigitsValue(JsString.Decimal(n)) == n
    decreases n
  {
    if n >= 10 {
      var d := JsString.Decimal(n);
      var init := JsString.Decimal(n / 10);
      assert d == init + [JsString.DigitChar(n % 10)];
      assert d[..|d| - 1] == init;
      DecimalValue(n / 10);
    }
  }

  lemma DigitNotWhite(c: char)
    requires IsDigit(c) || c == '-' || c == '+'
    ensures !JsString.IsWhite(c)
  {
  }

  /** parseInt reads back a rendered natural number, whatever non-digit text follows it. */
  lemma ParseDecimal(n: nat, rest: string)
    requires rest == [] || !IsDigit(rest[0])
    ensures ParseInt(JsString.Decimal(n) + rest) == Some(n)
  {
    var d := JsString.Decimal(n);
    var s := d + rest;
    assert s[0] == d[0];
    DigitNotWhite(d[0]);
    assert JsString.LeadingWhite(s) == 0;
    assert s[0..] == s;
    DigitRunOfDigitsThen(d, rest);
    DecimalValue(n);
  }

  /** A leading minus sign negates. */
  lemma ParseNegativeDecimal(n: nat, rest: string)
    requires rest == [] || !IsDigit(rest[0])
    ensures ParseInt("-" + JsString.Decimal(n) + rest) == Some(-(n as int))
  {
    var d := JsString.Decimal(n);
    var s := "-" + d + rest;
    DigitNotWhite('-');
    assert JsString.LeadingWhite(s) == 0;
    assert s[0..] == s;
    assert s[1..] == d + rest;
    DigitRunOfDigitsThen(d, rest);
    DecimalValue(n);
  }

  lemma LeadingWhiteConcat(w: string, s: string)
    requires JsString.AllWhite(w)
    ensures JsString.LeadingWhite(w + s) == |w| + JsString.LeadingWhite(s)
  {
    if w != [] {
      assert (w + s)[1..] == w[1..] + s;
      LeadingWhiteConcat(w[1..], s);
    } else {
      assert w + s == s;
    }
  }

  /** Leading white space does not change the result. */
  lemma ParseSkipsWhite(w: string, s: string)
    requires JsString.AllWhite(w)
    ensures ParseInt(w + s) == ParseInt(s)
  {
    LeadingWhiteConcat(w, s);
    assert (w + s)[|w| + JsString.LeadingWhite(s)..] == s[JsString.LeadingWhite(s)..];
  }

  /** Text that starts with something other than white space, a sign or a digit is NaN. */
  lemma ParseNaN(s: string)
    requires s != [] && !JsString.IsWhite(s[0]) && !IsDigit(s[0]) && s[0] != '-' && s[0] != '+'
    ensures ParseInt(s) == None
  {
    assert s[0..] == s;
  }

  // ---------------------------------------------------------------------
  // Defaults of page and limit

  /** An absent page or limit gets its default, as do every object and 0. */
  lemma Defaults()
    ensures Page(None) == 1 && Limit(None) == 25
    ensures Page(Some(Json.Obj([]))) == 1 && Limit(Some(Json.Obj([]))) == 25
    ensures Page(Some(Json.Str("0"))) == 1 && Limit(Some(Json.Str("0"))) == 25
  {
    ParseNaN("undefined");
    ParseNaN("[object Object]");
    ParseDecimal(0, "");
    assert JsString.Decimal(0) + "" == "0";
  }

  /** A positive number is taken as written. */
  lemma PageAsWritten(n: nat, rest: string)
    requires n > 0 && (rest == [] || !IsDigit(rest[0]))
    ensures Page(Some(Json.Str(JsString.Decimal(n) + rest))) == n
  {
    var text := JsString.Decimal(n) + rest;
    ParseDecimal(n, rest);
    assert ParseInt(Json.OptionToJsString(Some(Json.Str(text)))) == Some(n);
  }

  /** A negative number is kept, not replaced by the default. */
  lemma NegativeKept(n: nat, rest: string)
    requires n > 0 && (rest == [] || !IsDigit(rest[0]))
    ensures Page(Some(Json.Str("-" + JsString.Decimal(n) + rest))) == -(n as int)
    ensures Limit(Some(Json.Str("-" + JsString.Decimal(n) + rest))) == -(n as int)
  {
    var text := "-" + JsString.Decimal(n) + rest;
    ParseNegativeDecimal(n, rest);
    assert ParseInt(Json.OptionToJsString(Some(Json.Str(text)))) == Some(-(n as int));
  }
}
