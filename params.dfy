/** Validation of the `page` and `per_page` query arguments of the list
    endpoints: absent arguments take their defaults, present ones must be
    decimal integers of at least 1, and anything else is a 400 error. */
module Params {
  import opened Wrappers

  const DefaultPage := 1
  const DefaultPerPage := 10

  const ErrorPrefix := "Invalid pagination parameters: "
  const NotPositiveReason := "Page and per_page must be positive integers."

  /** The reason integer conversion gives for text that is not an integer. */
  function NotAnIntegerReason(text: string): string
  {
    "invalid literal for int() with base 10: '" + text + "'"
  }

  /** A validated page request. */
  datatype PageSpec = PageSpec(page: int, perPage: int)

  predicate IsDigit(c: char) { '0' <= c <= '9' }

  predicate AllDigits(s: string)
  {
    forall i :: 0 <= i < |s| ==> IsDigit(s[i])
  }

  /** A decimal integer literal: an optional minus sign and at least one digit. */
  predicate IsIntegerLiteral(s: string)
  {
    if |s| > 0 && s[0] == '-' then |s| > 1 && AllDigits(s[1..]) else |s| > 0 && AllDigits(s)
  }

  /** The value of a string of decimal digits, most significant first. */
  function DigitsValue(s: string): nat
    requires AllDigits(s)
  {
    if s == [] then 0 else DigitsValue(s[..|s| - 1]) * 10 + (s[|s| - 1] as int - '0' as int)
  }

  /** The decimal rendering of a natural number, without leading zeros. */
  function ShowNat(n: nat): (s: string)
    ensures |s| > 0 && AllDigits(s)
  {
    var d := ['0' + (n % 10) as char];
    if n < 10 then d else ShowNat(n / 10) + d
  }

  /** Conversion of a query argument to an integer; `None` when the text is not an integer. */
  function ParseInt(s: string): (r: Option<int>)
    ensures r.Some? <==> IsIntegerLiteral(s)
    ensures r.Some? && s[0] != '-' ==> r.value >= 0
    ensures r.Some? && s[0] == '-' ==> r.value <= 0
  {
    if |s| > 0 && s[0] == '-' then
      if |s| > 1 && AllDigits(s[1..]) then Some(0 - DigitsValue(s[1..]) as int) else None
    else if |s| > 0 && AllDigits(s) then Some(DigitsValue(s))
    else None
  }

  /** Reading back the decimal rendering of a number gives the number. */
  lemma {:induction false} ShowNatRoundTrip(n: nat)
    ensures DigitsValue(ShowNat(n)) == n
  {
    var s := ShowNat(n);
    if n >= 10 {
      ShowNatRoundTrip(n / 10);
      assert s[..|s| - 1] == ShowNat(n / 10);
    }
  }

  /** Every positive number written in decimal is accepted as itself. */
  lemma ParseShownNat(n: nat)
    ensures ParseInt(ShowNat(n)) == Some(n)
  {
    ShowNatRoundTrip(n);
  }

  /** A leading zero does not change the value of a digit string. */
  lemma {:induction false} LeadingZeroValue(s: string)
    requires AllDigits(s)
    ensures AllDigits("0" + s) && DigitsValue("0" + s) == DigitsValue(s)
    decreases |s|
  {
    if s != [] {
      LeadingZeroValue(s[..|s| - 1]);
      assert ("0" + s)[..|"0" + s| - 1] == "0" + s[..|s| - 1];
    }
  }

  /** Leading zeros are accepted and ignored: `007` converts to 7. */
  lemma LeadingZeroIgnored(s: string)
    requires |s| > 0 && AllDigits(s)
    ensures ParseInt("0" + s) == ParseInt(s)
  {
    LeadingZeroValue(s);
  }

  /** A minus sign before a decimal rendering gives the negated number. */
  lemma ParseNegated(n: nat)
    ensures ParseInt("-" + ShowNat(n)) == Some(0 - n as int)
  {
    ShowNatRoundTrip(n);
    assert ("-" + ShowNat(n))[1..] == ShowNat(n);
  }

  /** One argument: its default when absent, otherwise its integer value or the failure reason. */
  function ParseArg(arg: Option<string>, default: int): (r: Result<int, string>)
    ensures arg.None? ==> r == Ok(default)
    ensures arg.Some? ==> (r.Ok? <==> IsIntegerLiteral(arg.value))
    ensures arg.Some? && r.Ok? ==> ParseInt(arg.value) == Some(r.value)
    ensures r.Err? ==> r.error == NotAnIntegerReason(arg.value)
  {
    match arg
    case None => Ok(default)
    case Some(text) =>
      match ParseInt(text)
      case Some(v) => Ok(v)
      case None => Err(NotAnIntegerReason(text))
  }

  /** Reading `page` (default 1) and then `per_page` (default 10). The first
      conversion that fails, or a value below 1, gives the error description
      of the 400 response. */
  function ParsePaginationArgs(page: Option<string>, perPage: Option<string>): (r: Result<PageSpec, string>)
    ensures r.Ok? ==> r.value.page >= 1 && r.value.perPage >= 1
    ensures r.Ok? ==> ParseArg(page, DefaultPage) == Ok(r.value.page)
    ensures r.Ok? ==> ParseArg(perPage, DefaultPerPage) == Ok(r.value.perPage)
    ensures r.Err? ==> ErrorPrefix <= r.error
    ensures r.Err? <==>
              || ParseArg(page, DefaultPage).Err?
              || ParseArg(perPage, DefaultPerPage).Err?
              || ParseArg(page, DefaultPage).value < 1
              || ParseArg(perPage, DefaultPerPage).value < 1
  {
    match ParseArg(page, DefaultPage)
    case Err(reason) => Err(ErrorPrefix + reason)
    case Ok(p) =>
      match ParseArg(perPage, DefaultPerPage)
      case Err(reason) => Err(ErrorPrefix + reason)
      case Ok(n) =>
        if p < 1 || n < 1 then Err(ErrorPrefix + NotPositiveReason)
        else Ok(PageSpec(p, n))
  }

  /** With neither argument given, the first page of ten rows is served. */
  lemma DefaultsAreFirstPageOfTen()
    ensures ParsePaginationArgs(None, None) == Ok(PageSpec(1, 10))
  {
  }

  /** Any pair of positive numbers written in decimal is accepted unchanged. */
  lemma ValidArgsAccepted(page: nat, perPage: nat)
    requires page >= 1 && perPage >= 1
    ensures ParsePaginationArgs(Some(ShowNat(page)), Some(ShowNat(perPage))) == Ok(PageSpec(page, perPage))
  {
    ParseShownNat(page);
    ParseShownNat(perPage);
  }

  /** A zero page or page size is refused with the positivity reason. */
  lemma ZeroRejected(page: nat, perPage: nat)
    requires page == 0 || perPage == 0
    ensures ParsePaginationArgs(Some(ShowNat(page)), Some(ShowNat(perPage)))
              == Err(ErrorPrefix + NotPositiveReason)
  {
    ParseShownNat(page);
    ParseShownNat(perPage);
  }

  /** Text that is not an integer is refused with a reason that quotes it;
      the page argument is read, and reported, first. */
  lemma NonIntegerRejected(page: Option<string>, perPage: Option<string>)
    requires page.Some? && !IsIntegerLiteral(page.value)
    ensures ParsePaginationArgs(page, perPage) == Err(ErrorPrefix + NotAnIntegerReason(page.value))
  {
  }
}
