/** 64-bit length arithmetic: exact within its bound, and only there. */
module Lengths {
  import opened Chars
  import opened Options
  import opened Parser
  import opened Trace
  import opened Split
  import opened Values

  /** The number that a digit string denotes. */
  function Numeral(base: nat, ds: seq<nat>): nat
    decreases |ds|
  {
    if ds == [] then 0 else Numeral(base, ds[..|ds| - 1]) * base + ds[|ds| - 1]
  }

  /** What the parser makes of it, digit by digit; None is an error. */
  function Guarded(base: nat, ds: seq<nat>): Option<nat>
    decreases |ds|
  {
    if ds == [] then Some(0)
    else match Guarded(base, ds[..|ds| - 1])
      case None => None
      case Some(t) => PushDigit(t, base, ds[|ds| - 1])
  }

  lemma ModShift(q: nat, x: nat)
    ensures (q * TWO_TO_THE_64 + x) % TWO_TO_THE_64 == x % TWO_TO_THE_64
    decreases q
  {
    if q > 0 {
      ModShift(q - 1, x);
      var y := (q - 1) * TWO_TO_THE_64 + x;
      assert q * TWO_TO_THE_64 + x == y + TWO_TO_THE_64;
      assert (y + TWO_TO_THE_64) % TWO_TO_THE_64 == y % TWO_TO_THE_64;
    }
  }

  /** Pushing a digit commutes with reduction modulo 2^64. */
  lemma PushModulo(n: nat, base: nat, d: nat)
    ensures (n % TWO_TO_THE_64 * base + d) % TWO_TO_THE_64 == (n * base + d) % TWO_TO_THE_64
  {
    var q, t := n / TWO_TO_THE_64, n % TWO_TO_THE_64;
    assert n == q * TWO_TO_THE_64 + t;
    assert n * base + d == (q * base) * TWO_TO_THE_64 + (t * base + d) by {
      assert n * base == q * TWO_TO_THE_64 * base + t * base;
      assert q * TWO_TO_THE_64 * base == (q * base) * TWO_TO_THE_64;
    }
    ModShift(q * base, t * base + d);
  }

  lemma Grows(n: nat, base: nat, d: nat)
    requires base >= 1
    ensures n <= n * base + d
  {
  }

  /** Any accepted value is the true value modulo 2^64 and never all ones. */
  lemma {:induction false} AcceptedModulo(base: nat, ds: seq<nat>)
    ensures match Guarded(base, ds)
            case Some(t) => t == Numeral(base, ds) % TWO_TO_THE_64 && t < ULLONG_MAX
            case None => true
    decreases |ds|
  {
    if ds != [] {
      var front, d := ds[..|ds| - 1], ds[|ds| - 1];
      AcceptedModulo(base, front);
      PushModulo(Numeral(base, front), base, d);
    }
  }

  /** A value is accepted and stored exactly if and only if it is below 2^64 - 1. */
  lemma {:induction false} ExactBelowBound(base: nat, ds: seq<nat>)
    requires base >= 1
    ensures Guarded(base, ds) == Some(Numeral(base, ds)) <==> Numeral(base, ds) < ULLONG_MAX
    decreases |ds|
  {
    hide PushDigit;
    AcceptedModulo(base, ds);
    if ds != [] && Numeral(base, ds) < ULLONG_MAX {
      var front, d := ds[..|ds| - 1], ds[|ds| - 1];
      Grows(Numeral(base, front), base, d);
      ExactBelowBound(base, front);
      PushExact(Numeral(base, front), base, d);
    }
  }

  lemma PushExact(n: nat, base: nat, d: nat)
    requires n <= n * base + d < ULLONG_MAX
    ensures PushDigit(n, base, d) == Some(n * base + d)
  {
    var t := n * base + d;
    assert t % TWO_TO_THE_64 == t;
  }

  /** The guard misses wraps: 23058430092136939520 = 2^64 + 2^62 is accepted as 2^62. */
  lemma GuardMissesWrap()
    ensures PushDigit(0x2000_0000_0000_0000, 10, 0) == Some(0x4000_0000_0000_0000)
    ensures 0x2000_0000_0000_0000 * 10 > ULLONG_MAX
  {
  }

  // ---------------------------------------------------------------- Content-Length

  /** The digits of a Content-Length value: blanks after the first digit are skipped. */
  function Digits(v: string): seq<nat>
    requires forall i :: 0 <= i < |v| ==> IsNum(v[i]) || v[i] == ' '
    decreases |v|
  {
    if v == "" then []
    else
      var c := v[|v| - 1];
      Digits(v[..|v| - 1]) + if c == ' ' then [] else [Digit(c)]
  }

  predicate IsDecimal(v: string) {
    && v != "" && IsNum(v[0])
    && forall i :: 0 <= i < |v| ==> IsNum(v[i]) || v[i] == ' '
  }

  lemma DigitsSnoc(v: string, c: char)
    requires forall i :: 0 <= i < |v| ==> IsNum(v[i]) || v[i] == ' '
    requires IsNum(c) || c == ' '
    ensures Digits(v + [c]) == Digits(v) + if c == ' ' then [] else [Digit(c)]
  {
    assert (v + [c])[..|v|] == v;
  }

  lemma GuardedSnoc(base: nat, ds: seq<nat>, d: nat)
    ensures Guarded(base, ds + [d]) ==
            match Guarded(base, ds) case None => None case Some(t) => PushDigit(t, base, d)
    ensures Numeral(base, ds + [d]) == Numeral(base, ds) * base + d
  {
    assert (ds + [d])[..|ds|] == ds;
  }

  lemma FirstDigitStep(p: Parser, ch: char)
    requires p.state.HeaderValueStart? && p.headerState.ContentLength? && p.nread < HTTP_MAX_HEADER_SIZE && IsNum(ch)
    ensures Step(p, ch) == Emit(p.(nread := p.nread + 1, state := HeaderValue, index := 0,
                                   contentLength := Digit(ch)), Byte(Value, ch))
  {
    ValueStartStep(p, ch);
  }

  lemma DigitStep(p: Parser, ch: char)
    requires p.state.HeaderValue? && p.headerState.ContentLength? && p.nread < HTTP_MAX_HEADER_SIZE
    requires IsNum(ch) || ch == ' '
    ensures var t := if ch == ' ' then Some(p.contentLength) else PushDigit(p.contentLength, 10, Digit(ch));
            if t.None? then Step(p, ch).next.Error?
            else Step(p, ch) == Emit(p.(nread := p.nread + 1, contentLength := t.value), Byte(Value, ch))
  {
    hide PushDigit;
    assert Micro(Count(p), ch) == AtValue(Count(p), ch);
  }

  /** The digits v of a Content-Length value are read as `Guarded` says: either all of them are
      accepted and the guarded number is stored, or the run ends in an error. */
  ghost predicate ReadsDecimal(p: Parser, v: string)
    requires IsDecimal(v)
  {
    match Guarded(10, Digits(v))
    case Some(t) => Run(p, 0, v) == Result(p.(nread := p.nread + |v|, state := HeaderValue, index := 0,
                                              contentLength := t), |v|, Bytes(Value, v), |v|, Advance)
    case None => Run(p, 0, v).end.Error?
  }

  lemma {:induction false} RunDecimal(p: Parser, v: string)
    requires p.state.HeaderValueStart? && p.headerState.ContentLength? && IsDecimal(v)
    requires p.nread + |v| <= HTTP_MAX_HEADER_SIZE
    ensures ReadsDecimal(p, v)
    decreases |v|
  {
    hide ReadsDecimal;
    var n := |v| - 1;
    assert v == v[..n] + [v[n]];
    if n == 0 {
      assert v == [v[0]];
      RunFirstDigit(p, v[0]);
    } else {
      RunDecimal(p, v[..n]);
      RunNextDigit(p, v[..n], v[n]);
    }
  }

  lemma RunFirstDigit(p: Parser, c: char)
    requires p.state.HeaderValueStart? && p.headerState.ContentLength? && IsNum(c) && p.nread < HTTP_MAX_HEADER_SIZE
    ensures ReadsDecimal(p, [c])
  {
    hide Step, Run, PushDigit, Guarded, Digits;
    assert "" + [c] == [c];
    DigitsSnoc("", c);
    FirstDigitStep(p, c);
    RunOne(p, 0, c);
    GuardedSnoc(10, [], Digit(c));
    FirstPush(Digit(c));
    NoDigits(10);
  }

  lemma RunNextDigit(p: Parser, s: string, c: char)
    requires p.headerState.ContentLength? && IsDecimal(s) && (IsNum(c) || c == ' ')
    requires p.nread + |s| + 1 <= HTTP_MAX_HEADER_SIZE
    requires ReadsDecimal(p, s)
    ensures ReadsDecimal(p, s + [c])
  {
    hide Step, Run, PushDigit, Guarded, Digits;
    DigitsSnoc(s, c);
    var ds := Digits(s);
    assert ds + [] == ds;
    if c != ' ' { GuardedSnoc(10, ds, Digit(c)); }
    if Guarded(10, ds).Some? {
      DigitStep(Run(p, 0, s).p, c);
      RunSnoc(p, 0, s, c);
      assert Bytes(Value, s + [c]) == Bytes(Value, s) + [Byte(Value, c)];
    } else {
      RunConcat(p, 0, s, [c]);
    }
  }

  lemma NoDigits(base: nat)
    ensures Guarded(base, []) == Some(0) && Digits("") == []
  {
  }

  lemma FirstPush(d: nat)
    requires d < 16
    ensures PushDigit(0, 10, d) == Some(d) && PushDigit(0, 16, d) == Some(d)
  {
  }

  /** A whole Content-Length value: exact below 2^64 - 1, and otherwise either refused or stored
      modulo 2^64. */
  lemma ContentLengthExact(p: Parser, v: string, eol: string)
    requires p.state.HeaderValueStart? && p.headerState.ContentLength? && IsDecimal(v) && IsEol(eol)
    requires p.nread + |v| + |eol| <= HTTP_MAX_HEADER_SIZE
    ensures var r := Run(p, 0, v + eol); var n := Numeral(10, Digits(v));
            && (r.end.Advance? ==>
                && r == Result(p.(nread := p.nread + |v| + |eol|, state := HeaderValueLws, index := 0,
                                  contentLength := r.p.contentLength), |v| + |eol|, Bytes(Value, v), 0, Advance)
                && r.p.contentLength == n % TWO_TO_THE_64 && r.p.contentLength < ULLONG_MAX)
            && (r.end.Advance? && r.p.contentLength == n <==> n < ULLONG_MAX)
            && Guarded(10, Digits(v)) == if r.end.Advance? then Some(r.p.contentLength) else None
  {
    hide Step, Run, Guarded, Numeral, Digits;
    var ds := Digits(v);
    RunDecimal(p, v);
    AcceptedModulo(10, ds);
    ExactBelowBound(10, ds);
    RunConcat(p, 0, v, eol);
    if Guarded(10, ds).Some? {
      RunValueEol(Run(p, 0, v).p, |v|, eol);
    }
  }

  /** The decimal spelling of a number. */
  function Decimals(n: nat): (v: string)
    ensures v != "" && forall i | 0 <= i < |v| :: IsNum(v[i])
  {
    var c := (n % 10 + '0' as int) as char;
    if n < 10 then [c] else Decimals(n / 10) + [c]
  }

  lemma {:induction false} DecimalsMeans(n: nat)
    ensures Numeral(10, Digits(Decimals(n))) == n
  {
    var c := (n % 10 + '0' as int) as char;
    if n < 10 {
      assert Decimals(n) == "" + [c];
      DigitsSnoc("", c);
      GuardedSnoc(10, [], Digit(c));
    } else {
      DecimalsMeans(n / 10);
      DigitsSnoc(Decimals(n / 10), c);
      GuardedSnoc(10, Digits(Decimals(n / 10)), Digit(c));
    }
  }

  /** A length that is wrapped and accepted: the digits of 2^61 followed by a 0 stand for 2^64 + 2^62, and
      the parser goes on with a length of 2^62. */
  lemma WrapAccepted(p: Parser, eol: string)
    requires p.state.HeaderValueStart? && p.headerState.ContentLength? && IsEol(eol)
    requires p.nread + |Decimals(0x2000_0000_0000_0000)| + 1 + |eol| <= HTTP_MAX_HEADER_SIZE
    ensures var v := Decimals(0x2000_0000_0000_0000) + "0"; var r := Run(p, 0, v + eol);
            && IsDecimal(v) && Numeral(10, Digits(v)) == 0x1_4000_0000_0000_0000
            && r.end.Advance? && r.p.contentLength == 0x4000_0000_0000_0000
  {
    hide Run, Guarded, Numeral, Digits, Decimals;
    var n := 0x2000_0000_0000_0000;
    var u := Decimals(n);
    assert u + "0" == u + ['0'];
    DecimalsMeans(n);
    DigitsSnoc(u, '0');
    GuardedSnoc(10, Digits(u), 0);
    ExactBelowBound(10, Digits(u));
    GuardMissesWrap();
    ContentLengthExact(p, u + "0", eol);
  }

  // ---------------------------------------------------------------- chunk sizes

  predicate IsHexString(s: string) {
    s != "" && forall i :: 0 <= i < |s| ==> Unhex(s[i]) != -1
  }

  function HexDigits(s: string): (ds: seq<nat>)
    requires forall i :: 0 <= i < |s| ==> Unhex(s[i]) != -1
    ensures |ds| == |s| && forall i :: 0 <= i < |s| ==> ds[i] == Unhex(s[i])
  {
    seq(|s|, i requires 0 <= i < |s| => Unhex(s[i]))
  }

  lemma SizeStartStep(p: Parser, ch: char)
    requires p.state.ChunkSizeStart? && p.nread < HTTP_MAX_HEADER_SIZE && Unhex(ch) != -1
    ensures Step(p, ch) == Move(p.(nread := p.nread + 1, state := ChunkSize, contentLength := Unhex(ch)))
  {
    assert Micro(Count(p), ch) == AtChunkSizeStart(Count(p), ch);
  }

  /** The first byte of a chunk size is accepted if and only if it is a hex digit or from the half of `unhex`
      that is not initialised, whose bytes count as 0. */
  lemma FirstSizeByte(p: Parser, ch: char)
    requires p.state.ChunkSizeStart? && p.nread < HTTP_MAX_HEADER_SIZE
    ensures !Step(p, ch).next.Error? <==> IsHex(ch) || ch as int >= 128
    ensures ch as int >= 128 ==> Step(p, ch).p.contentLength == 0 && Step(p, ch).p.state.ChunkSize?
  {
    hide HeaderLines, RequestLine;
    assert Micro(Count(p), ch) == AtChunkSizeStart(Count(p), ch);
  }

  lemma SizeStep(p: Parser, ch: char)
    requires p.state.ChunkSize? && p.nread < HTTP_MAX_HEADER_SIZE && Unhex(ch) != -1
    ensures match PushDigit(p.contentLength, 16, Unhex(ch))
            case None => Step(p, ch).next.Error?
            case Some(t) => Step(p, ch) == Move(p.(nread := p.nread + 1, contentLength := t))
  {
    hide PushDigit;
    assert Micro(Count(p), ch) == AtChunkSize(Count(p), ch);
  }

  lemma RunFirstHex(p: Parser, s: string, c: char)
    requires p.state.ChunkSizeStart? && p.nread < HTTP_MAX_HEADER_SIZE && Unhex(c) != -1 && s == [c]
    ensures Guarded(16, HexDigits(s)) == Some(Unhex(c))
    ensures Run(p, 0, s) ==
            Result(p.(nread := p.nread + 1, state := ChunkSize, contentLength := Unhex(c)), 1, [], 0, Advance)
  {
    hide Step, Run;
    SizeStartStep(p, c);
    RunOne(p, 0, c);
    FirstPush(Unhex(c));
    assert HexDigits(s)[..0] == [];
  }

  lemma RunMoreHex(p: Parser, u: string, c: char, before: Option<nat>)
    requires p.nread + |u| < HTTP_MAX_HEADER_SIZE && Unhex(c) != -1
    requires match before
             case Some(t) =>
               Run(p, 0, u) == Result(p.(nread := p.nread + |u|, state := ChunkSize, contentLength := t),
                                      |u|, [], 0, Advance)
             case None => Run(p, 0, u).end.Error?
    ensures match if before.None? then None else PushDigit(before.value, 16, Unhex(c))
            case Some(t) =>
              Run(p, 0, u + [c]) == Result(p.(nread := p.nread + |u| + 1, state := ChunkSize, contentLength := t),
                                           |u| + 1, [], 0, Advance)
            case None => Run(p, 0, u + [c]).end.Error?
  {
    hide Step, Run, PushDigit, Unhex;
    if before.Some? {
      SizeStep(Run(p, 0, u).p, c);
      RunSnoc(p, 0, u, c);
    } else {
      RunConcat(p, 0, u, [c]);
    }
  }

  /** The digits of a chunk size. */
  lemma {:induction false} RunHex(p: Parser, s: string)
    requires p.state.ChunkSizeStart? && IsHexString(s) && p.nread + |s| <= HTTP_MAX_HEADER_SIZE
    ensures match Guarded(16, HexDigits(s))
            case Some(t) =>
              Run(p, 0, s) == Result(p.(nread := p.nread + |s|, state := ChunkSize, contentLength := t),
                                     |s|, [], 0, Advance)
            case None => Run(p, 0, s).end.Error?
    decreases |s|
  {
    hide Step, Run, PushDigit, Guarded;
    var n := |s| - 1;
    var u, c := s[..n], s[n];
    assert s == u + [c] && HexDigits(s) == HexDigits(u) + [Unhex(c)];
    GuardedSnoc(16, HexDigits(u), Unhex(c));
    hide HexDigits, Unhex;
    if n == 0 {
      RunFirstHex(p, s, c);
    } else {
      RunHex(p, u);
      RunMoreHex(p, u, c, Guarded(16, HexDigits(u)));
    }
  }

  /** A chunk size is exact below 2^64 - 1, and otherwise either refused or stored modulo 2^64. */
  lemma ChunkSizeExact(p: Parser, s: string)
    requires p.state.ChunkSizeStart? && IsHexString(s) && p.nread + |s| <= HTTP_MAX_HEADER_SIZE
    ensures var r := Run(p, 0, s); var n := Numeral(16, HexDigits(s));
            && (r.end.Advance? ==> r.p.contentLength == n % TWO_TO_THE_64 && r.p.contentLength < ULLONG_MAX)
            && (r.end.Advance? && r.p.contentLength == n <==> n < ULLONG_MAX)
  {
    hide Step, Run, Guarded, Numeral;
    RunHex(p, s);
    AcceptedModulo(16, HexDigits(s));
    ExactBelowBound(16, HexDigits(s));
  }

  /** The hex spelling of a number, in either case. */
  function ShowHex(n: nat, upper: bool): (s: string)
    ensures s != ""
  {
    var c := if upper then "0123456789ABCDEF"[n % 16] else "0123456789abcdef"[n % 16];
    if n < 16 then [c] else ShowHex(n / 16, upper) + [c]
  }

  lemma HexValue(d: nat)
    requires d < 16
    ensures Unhex("0123456789abcdef"[d]) == d && Unhex("0123456789ABCDEF"[d]) == d
  {
  }

  lemma {:induction false} ShowHexMeans(n: nat, upper: bool)
    ensures IsHexString(ShowHex(n, upper)) && Numeral(16, HexDigits(ShowHex(n, upper))) == n
  {
    hide Unhex;
    var d := n % 16;
    HexValue(d);
    var c := if upper then "0123456789ABCDEF"[d] else "0123456789abcdef"[d];
    var u := if n < 16 then "" else ShowHex(n / 16, upper);
    if n >= 16 { ShowHexMeans(n / 16, upper); }
    assert ShowHex(n, upper) == u + [c];
    assert HexDigits(u + [c]) == HexDigits(u) + [d];
    GuardedSnoc(16, HexDigits(u), d);
  }

  function Power(k: nat): nat {
    if k == 0 then 1 else 16 * Power(k - 1)
  }

  lemma {:induction false} ShowHexLength(n: nat, upper: bool, k: nat)
    requires 0 < k && n < Power(k)
    ensures |ShowHex(n, upper)| <= k
    decreases k
  {
    if n >= 16 { ShowHexLength(n / 16, upper, k - 1); }
  }

  /** A chunk size that is printed in hex, in either case, is read as that number. */
  lemma PrintedSize(n: nat, upper: bool)
    requires n < 0xFFFF_FFFF_FFFF_FFFF
    ensures var s := ShowHex(n, upper);
            IsHexString(s) && |s| <= 16 && Guarded(16, HexDigits(s)) == Some(n)
  {
    hide Guarded, Numeral, HexDigits, ShowHex;
    ShowHexMeans(n, upper);
    ExactBelowBound(16, HexDigits(ShowHex(n, upper)));
    SixteenDigits();
    ShowHexLength(n, upper, 16);
  }

  lemma SixteenDigits()
    ensures Power(16) == 0x1_0000_0000_0000_0000
  {
    assert Power(4) == 0x1_0000;
    assert Power(8) == 0x1_0000_0000;
    assert Power(12) == 0x1_0000_0000_0000;
  }

  /** A Content-Length that is printed in decimal is read as that number. */
  lemma PrintedLength(n: nat)
    requires n < 0xFFFF_FFFF_FFFF_FFFF
    ensures IsDecimal(Decimals(n)) && Guarded(10, Digits(Decimals(n))) == Some(n)
  {
    hide Guarded, Numeral, Digits, Decimals;
    DecimalsMeans(n);
    ExactBelowBound(10, Digits(Decimals(n)));
  }

  lemma {:induction false} DecimalDecimals(n: nat)
    ensures AllNum(Decimals(n)) && Decimal(Decimals(n)) == n
  {
    var c := (n % 10 + '0' as int) as char;
    if n < 10 {
      assert Decimals(n) == "" + [c];
      DecimalSnoc("", c);
    } else {
      DecimalDecimals(n / 10);
      DecimalSnoc(Decimals(n / 10), c);
    }
  }
}
