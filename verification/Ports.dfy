/** The numbers that `http_parser_parse_url` reads. */
module Ports {
  import opened Chars
  import opened Options
  import opened Lengths
  import opened Urls
  import opened UrlRoundTrip

  /** `strtoul` on a printed number: as it is with and without a '+', negated modulo 2^64 behind a '-', and
      ULONG_MAX past 64 bits; what comes behind does not matter. */
  lemma PrintedNumber(n: nat, tail: string)
    requires tail != "" ==> !IsNum(tail[0])
    ensures var s := Decimals(n) + tail; var most := 18446744073709551615;
            && Strtoul(s) == Strtoul("+" + s) == (if n > most then most else n)
            && Strtoul("-" + s) == (if n > most then most else if n == 0 then 0 else 18446744073709551616 - n)
  {
    hide Decimals, DigitPrefix, Decimal;
    var s := Decimals(n) + tail;
    DecimalDecimals(n);
    NumberEnds(Decimals(n), tail);
    DigitsEnd(Decimals(n), tail);
    assert s[0] == Decimals(n)[0] && s[..|Decimals(n)|] == Decimals(n);
    assert ("+" + s)[1..] == s && ("-" + s)[1..] == s;
  }

  /** The components of a URL with a port in it. */
  function WithPort(n: nat): Parts {
    Parts(Some("http"), Some(Authority(None, Named("h"), Some(Decimals(n)))), "", None, 0, "")
  }

  /** The port is at most 65535, or the URL is refused. */
  lemma PortExact(n: nat)
    ensures ParseUrl(false, "http://h:" + Decimals(n)) ==
            if n > 65535 then None
            else Some(UrlInfo(map[UfSchema := Slice(0, 4), UfHost := Slice(7, 1),
                                  UfPort := Slice(9, |Decimals(n)|)], n))
  {
    hide Decimals, Decimal, ParseUrl, WithPort, Shaped, Limits, FieldsOf, PrintUrl;
    PortFits(n);
    PrintedPort(n);
    PlacesOfPort(n);
    ParsedParts(false, WithPort(n));
  }

  lemma PortFits(n: nat)
    ensures var p := WithPort(n);
            && Shaped(false, p) && (Limits(false, p) <==> n <= 65535)
            && p.authority.Some? && p.authority.value.port == Some(Decimals(n)) && AllNum(Decimals(n))
            && Decimal(Decimals(n)) == n
  {
    hide Decimals, Decimal;
    DecimalDecimals(n);
  }

  lemma PrintedPort(n: nat)
    ensures PrintUrl(WithPort(n)) == "http://h:" + Decimals(n)
  {
    hide Decimals;
    assert "http" + "://" + ("" + "h" + (":" + Decimals(n))) == "http://h:" + Decimals(n);
  }

  lemma PlacesOfPort(n: nat)
    ensures FieldsOf(WithPort(n))
            == map[UfSchema := Slice(0, 4), UfHost := Slice(7, 1), UfPort := Slice(9, |Decimals(n)|)]
  {
    hide Decimals;
  }
}
