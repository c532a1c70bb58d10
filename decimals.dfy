/**
 * Exact decimal numbers and the number parser that `pd.to_numeric` applies
 * to a cell once its separators have been rewritten. A value is kept as an
 * integer mantissa over a power of ten, never as a binary float.
 */
module Decimals {
  import opened Wrappers
  import opened Strings

  /** The number `mantissa / 10^scale`; `scale` is the count of digits written after the point. */
  datatype Decimal = Decimal(mantissa: int, scale: nat)

  predicate IsDigit(c: char) {
    '0' <= c <= '9'
  }

  predicate AllDigits(s: string) {
    forall i :: 0 <= i < |s| ==> IsDigit(s[i])
  }

  function DigitValue(c: char): nat
    requires IsDigit(c)
  {
    c as int - '0' as int
  }

  function DigitChar(n: nat): (c: char)
    requires n < 10
    ensures IsDigit(c) && DigitValue(c) == n
  {
    ('0' as int + n) as char
  }

  /** The natural number a digit string denotes, most significant digit first. */
  function DigitsValue(s: string): nat
    requires AllDigits(s)
  {
    if s == [] then 0 else DigitsValue(s[..|s| - 1]) * 10 + DigitValue(s[|s| - 1])
  }

  /** The shortest digit string of `n`: at least one digit (no leading zero, by `NatDigitsNoLeadingZero`). */
  function NatDigits(n: nat): (r: string)
    ensures |r| >= 1 && AllDigits(r) && DigitsValue(r) == n
  {
    if n < 10 then [DigitChar(n)]
    else
      var r := NatDigits(n / 10) + [DigitChar(n % 10)];
      assert r[..|r| - 1] == NatDigits(n / 10);
      r
  }

  /** A positive number's digit string does not start with `0`. */
  lemma {:induction false} NatDigitsNoLeadingZero(n: nat)
    requires n > 0
    ensures NatDigits(n)[0] != '0'
  {
    if n >= 10 {
      NatDigitsNoLeadingZero(n / 10);
      assert NatDigits(n)[0] == NatDigits(n / 10)[0];
    }
  }

  function Zeros(k: nat): (z: string)
    ensures |z| == k && AllDigits(z)
  {
    seq(k, _ => '0')
  }

  /** Leading zeros do not change the value of a digit string. */
  lemma {:induction false} LeadingZeros(k: nat, s: string)
    requires AllDigits(s)
    ensures AllDigits(Zeros(k) + s) && DigitsValue(Zeros(k) + s) == DigitsValue(s)
    decreases |s|, k
  {
    var t := Zeros(k) + s;
    if s == [] {
      assert t == Zeros(k);
      if k > 0 {
        assert t[..|t| - 1] == Zeros(k - 1);
        LeadingZeros(k - 1, s);
        assert Zeros(k - 1) + s == Zeros(k - 1);
      }
    } else {
      assert t[..|t| - 1] == Zeros(k) + s[..|s| - 1];
      LeadingZeros(k, s[..|s| - 1]);
    }
  }

  /** `ds` with zeros in front until it is at least `width` long. */
  function Padded(ds: string, width: nat): (r: string)
    requires AllDigits(ds)
    ensures |r| >= width && |r| >= |ds| && AllDigits(r) && DigitsValue(r) == DigitsValue(ds)
  {
    var k := if |ds| < width then width - |ds| else 0;
    LeadingZeros(k, ds);
    Zeros(k) + ds
  }

  function Abs(n: int): nat {
    if n < 0 then -n else n
  }

  function SignText(d: Decimal): string {
    if d.mantissa < 0 then "-" else ""
  }

  /** The digits of `|mantissa|`, padded so that at least one digit stands before the point. */
  function AllDigitsOf(d: Decimal): (ds: string)
    ensures |ds| >= d.scale + 1 && AllDigits(ds) && DigitsValue(ds) == Abs(d.mantissa)
  {
    Padded(NatDigits(Abs(d.mantissa)), d.scale + 1)
  }

  function IntegerDigits(d: Decimal): (ip: string)
    ensures |ip| >= 1 && AllDigits(ip)
  {
    var ds := AllDigitsOf(d);
    ds[..|ds| - d.scale]
  }

  function FractionDigits(d: Decimal): (fp: string)
    ensures |fp| == d.scale && AllDigits(fp)
  {
    var ds := AllDigitsOf(d);
    ds[|ds| - d.scale..]
  }

  /**
   * The plain text of a decimal, as Python's `str` writes a number: an
   * optional `-`, the integer digits and, when the scale is positive, `.`
   * followed by exactly `scale` digits.
   */
  function Format(d: Decimal): string {
    SignText(d) + IntegerDigits(d) + (if d.scale == 0 then "" else "." + FractionDigits(d))
  }

  /** Integer digits with `.` between groups of three, counted from the right. */
  function Group(ds: string): string
    decreases |ds|
  {
    if |ds| <= 3 then ds else Group(ds[..|ds| - 3]) + "." + ds[|ds| - 3..]
  }

  /**
   * The Brazilian Portuguese text of a decimal (`1.234,56`): thousands
   * grouped with `.` and the fraction after a `,`.
   */
  function FormatBR(d: Decimal): string {
    SignText(d) + Group(IntegerDigits(d)) + (if d.scale == 0 then "" else "," + FractionDigits(d))
  }

  /** Position of the first `c` in `s`, or `|s|` when there is none. */
  function IndexOf(s: string, c: char): (k: nat)
    ensures k <= |s|
    ensures forall j :: 0 <= j < k ==> s[j] != c
    ensures k < |s| ==> s[k] == c
  {
    if s == [] then 0
    else if s[0] == c then 0
    else 1 + IndexOf(s[1..], c)
  }

  /** Digits with at most one point and at least one digit: `12`, `12.5`, `12.`, `.5`. */
  function ParseUnsigned(s: string): Option<Decimal> {
    var k := IndexOf(s, '.');
    var ip := s[..k];
    var fp := if k < |s| then s[k + 1..] else "";
    if AllDigits(ip) && AllDigits(fp) && |ip| + |fp| > 0 then
      assert AllDigits(ip + fp);
      Some(Decimal(DigitsValue(ip + fp), |fp|))
    else None
  }

  /** 1 when `s` starts with a sign, else 0. */
  function SignLength(s: string): (k: nat)
    ensures k <= 1 && k <= |s|
  {
    if |s| > 0 && (s[0] == '+' || s[0] == '-') then 1 else 0
  }

  /**
   * The number grammar of the model: an optional `+` or `-`, then digits
   * with at most one decimal point and at least one digit. Anything else
   * is no number.
   */
  function Parse(s: string): Option<Decimal> {
    var k := SignLength(s);
    match ParseUnsigned(s[k..])
    case None => None
    case Some(d) => Some(if k == 1 && s[0] == '-' then Decimal(-d.mantissa, d.scale) else d)
  }

  /** The rest of a number after its integer digits: nothing, or a point and fraction digits. */
  predicate FractionTail(t: string, integerLength: nat) {
    (t == [] && integerLength > 0)
    || (t != [] && t[0] == '.' && AllDigits(t[1..]) && integerLength + |t| - 1 > 0)
  }

  /**
   * `s` splits into an optional sign `s[..k]`, integer digits `s[k..p]` and
   * a fraction tail `s[p..]`.
   */
  predicate SplitsAsNumber(s: string, k: nat, p: nat) {
    && k <= 1 && k <= p <= |s|
    && (k == 1 ==> s[0] == '+' || s[0] == '-')
    && AllDigits(s[k..p])
    && FractionTail(s[p..], p - k)
  }

  /** Reference definition of the grammar, independent of how `Parse` scans. */
  ghost predicate InGrammar(s: string) {
    exists k: nat, p: nat :: SplitsAsNumber(s, k, p)
  }

  /** A digit string holds no occurrence of a non-digit. */
  lemma {:induction false} DigitsCount(s: string, c: char)
    requires AllDigits(s) && !IsDigit(c)
    ensures Count(s, c) == 0
    decreases |s|
  {
    if s != [] {
      DigitsCount(s[1..], c);
    }
  }

  /** After `n` digits and then a point (or the end), the first point is at `n`. */
  lemma IndexOfAfterDigits(s: string, n: nat)
    requires n <= |s| && AllDigits(s[..n])
    requires n == |s| || s[n] == '.'
    ensures IndexOf(s, '.') == n
  {
  }

  /** The integer and fraction digits of a decimal make up its digit string. */
  lemma DigitsSplit(d: Decimal)
    ensures IntegerDigits(d) + FractionDigits(d) == AllDigitsOf(d)
  {
    var ds := AllDigitsOf(d);
    assert ds[..|ds| - d.scale] + ds[|ds| - d.scale..] == ds;
  }

  /** A leading `-` negates what the unsigned parser reads; no sign keeps it. */
  lemma ParseSigned(sign: string, body: string)
    requires sign == "" || sign == "-"
    requires |body| > 0 && IsDigit(body[0])
    ensures Parse(sign + body)
         == match ParseUnsigned(body)
            case None => None
            case Some(x) => Some(if sign == "-" then Decimal(-x.mantissa, x.scale) else x)
  {
    var s := sign + body;
    assert s[0] == (if sign == "" then body[0] else '-');
    assert s[SignLength(s)..] == body;
  }

  /** Integer digits, a point and fraction digits are read with one scale step per fraction digit. */
  lemma ParseUnsignedPointed(ip: string, fp: string)
    requires |ip| > 0 && AllDigits(ip) && AllDigits(fp)
    ensures AllDigits(ip + fp)
    ensures ParseUnsigned(ip + ("." + fp)) == Some(Decimal(DigitsValue(ip + fp), |fp|))
  {
    var s := ip + ("." + fp);
    assert s[..|ip|] == ip;
    IndexOfAfterDigits(s, |ip|);
    assert s[|ip| + 1..] == fp;
  }

  /** Digits without a point are read as an integer. */
  lemma ParseUnsignedInteger(ip: string)
    requires |ip| > 0 && AllDigits(ip)
    ensures ParseUnsigned(ip) == Some(Decimal(DigitsValue(ip), 0))
  {
    assert ip[..|ip|] == ip;
    IndexOfAfterDigits(ip, |ip|);
    assert ip + "" == ip;
  }

  /** The sign text and the digit value of a decimal determine its mantissa. */
  lemma SignedValue(d: Decimal, x: Decimal)
    requires x == Decimal(DigitsValue(AllDigitsOf(d)), d.scale)
    ensures (if SignText(d) == "-" then Decimal(-x.mantissa, x.scale) else x) == d
  {
  }

  /** Without fraction digits, the plain text is the sign and all the digits. */
  lemma FormatInteger(d: Decimal)
    requires d.scale == 0
    ensures Format(d) == SignText(d) + AllDigitsOf(d)
  {
    var ds := AllDigitsOf(d);
    assert IntegerDigits(d) == ds[..|ds|] == ds;
    assert SignText(d) + ds + "" == SignText(d) + ds;
  }

  /** Plain text of a decimal without fraction digits, read back. */
  lemma ParseFormatInteger(d: Decimal)
    requires d.scale == 0
    ensures Parse(Format(d)) == Some(d)
  {
    var sign, ds := SignText(d), AllDigitsOf(d);
    FormatInteger(d);
    ParseUnsignedInteger(ds);
    ParseSigned(sign, ds);
    SignedValue(d, Decimal(DigitsValue(ds), 0));
  }

  /** Plain text of a decimal with fraction digits, read back. */
  lemma ParseFormatFraction(d: Decimal)
    requires d.scale > 0
    ensures Parse(Format(d)) == Some(d)
  {
    var sign, ip, fp := SignText(d), IntegerDigits(d), FractionDigits(d);
    DigitsSplit(d);
    assert Format(d) == sign + (ip + ("." + fp));
    ParseUnsignedPointed(ip, fp);
    ParseSigned(sign, ip + ("." + fp));
    SignedValue(d, Decimal(DigitsValue(ip + fp), |fp|));
  }

  /** Parsing the plain text of a decimal gives it back: digits, sign and scale. */
  lemma ParseFormat(d: Decimal)
    ensures Parse(Format(d)) == Some(d)
  {
    if d.scale == 0 {
      ParseFormatInteger(d);
    } else {
      ParseFormatFraction(d);
    }
  }

  /** What the unsigned parser accepts is integer digits up to the first point, then a fraction tail. */
  lemma ParseUnsignedSplits(body: string)
    requires ParseUnsigned(body).Some?
    ensures AllDigits(body[..IndexOf(body, '.')])
    ensures FractionTail(body[IndexOf(body, '.')..], IndexOf(body, '.'))
  {
    var i := IndexOf(body, '.');
    if i < |body| {
      assert body[i..][0] == '.';
      assert body[i..][1..] == body[i + 1..];
    } else {
      assert body[i..] == [];
    }
  }

  /** A string `Parse` accepts splits as the grammar says. */
  lemma ParseSplits(s: string)
    requires Parse(s).Some?
    ensures InGrammar(s)
  {
    var k: nat := SignLength(s);
    var body := s[k..];
    assert ParseUnsigned(body).Some?;
    ParseUnsignedSplits(body);
    var i := IndexOf(body, '.');
    var p := k + i;
    assert s[k..p] == body[..i];
    assert s[p..] == body[i..];
    assert SplitsAsNumber(s, k, p);
  }

  /** A string that splits as the grammar says is accepted by `Parse`. */
  lemma SplitsParse(s: string, k: nat, p: nat)
    requires SplitsAsNumber(s, k, p)
    ensures Parse(s).Some?
  {
    if k == 0 && |s| > 0 {
      if p > 0 {
        assert s[k..p][0] == s[0];
      } else {
        assert s[p..][0] == s[0];
      }
    }
    assert SignLength(s) == k;
    var body := s[k..];
    assert body[..p - k] == s[k..p];
    IndexOfAfterDigits(body, p - k);
    if p < |s| {
      assert body[p - k + 1..] == s[p..][1..];
    }
  }

  /** `Parse` accepts exactly the strings of the grammar. */
  lemma ParseIffGrammar(s: string)
    ensures Parse(s).Some? <==> InGrammar(s)
  {
    if Parse(s).Some? {
      ParseSplits(s);
    }
    if InGrammar(s) {
      var k: nat, p: nat :| SplitsAsNumber(s, k, p);
      SplitsParse(s, k, p);
    }
  }

  /** The fraction digits of a split number: after the point, or none. */
  function FractionPart(s: string, p: nat): string
    requires p <= |s|
  {
    if p < |s| then s[p + 1..] else ""
  }

  /** `v` negated when the number has a leading `-`. */
  function ApplySign(s: string, k: nat, v: int): int {
    if k == 1 && |s| > 0 && s[0] == '-' then -v else v
  }

  /** The value the unsigned parser gives for integer digits `body[..n]` followed by a fraction tail. */
  lemma ParseUnsignedValue(body: string, n: nat)
    requires n <= |body| && AllDigits(body[..n]) && FractionTail(body[n..], n)
    ensures AllDigits(body[..n] + FractionPart(body, n))
    ensures ParseUnsigned(body) == Some(Decimal(DigitsValue(body[..n] + FractionPart(body, n)), |FractionPart(body, n)|))
  {
    IndexOfAfterDigits(body, n);
    if n < |body| {
      assert body[n..][1..] == body[n + 1..];
    }
  }

  /**
   * The value `Parse` gives on any string of the grammar, canonical or not
   * (`05`, `+5`, `5.`, `.5`): the sign applied to the integer and fraction
   * digits read together, at one scale step per fraction digit.
   */
  lemma ParseValue(s: string, k: nat, p: nat)
    requires SplitsAsNumber(s, k, p)
    ensures AllDigits(s[k..p] + FractionPart(s, p))
    ensures Parse(s) == Some(Decimal(ApplySign(s, k, DigitsValue(s[k..p] + FractionPart(s, p))), |FractionPart(s, p)|))
  {
    SplitSignLength(s, k, p);
    var body, n: nat := s[k..], p - k;
    assert body[..n] == s[k..p];
    assert body[n..] == s[p..];
    assert FractionPart(body, n) == FractionPart(s, p) by {
      if p < |s| {
        assert body[n + 1..] == s[p + 1..];
      }
    }
    ParseUnsignedValue(body, n);
    ParseSignedBody(s, k, Decimal(DigitsValue(s[k..p] + FractionPart(s, p)), |FractionPart(s, p)|));
  }

  /** `Parse` applies the sign to what the unsigned parser reads after it. */
  lemma ParseSignedBody(s: string, k: nat, x: Decimal)
    requires k <= |s| && SignLength(s) == k && ParseUnsigned(s[k..]) == Some(x)
    ensures Parse(s) == Some(Decimal(ApplySign(s, k, x.mantissa), x.scale))
  {
  }

  /** The sign of a split number is what `Parse` skips. */
  lemma SplitSignLength(s: string, k: nat, p: nat)
    requires SplitsAsNumber(s, k, p)
    ensures SignLength(s) == k
  {
    if k == 0 && |s| > 0 {
      if p > 0 {
        assert s[k..p][0] == s[0];
      } else {
        assert s[p..][0] == s[0];
      }
    }
  }

  /** A string that splits as a number holds at most one point. */
  lemma SplitPoints(s: string, k: nat, p: nat)
    requires SplitsAsNumber(s, k, p)
    ensures Count(s, '.') <= 1
  {
    var sign, ip, t := s[..k], s[k..p], s[p..];
    assert s == sign + ip + t;
    CountConcat(sign + ip, t, '.');
    CountConcat(sign, ip, '.');
    DigitsCount(ip, '.');
    if k == 1 {
      assert sign == [s[0]];
    }
    if t != [] {
      assert t == [t[0]] + t[1..];
      CountConcat([t[0]], t[1..], '.');
      DigitsCount(t[1..], '.');
    }
  }

  /** A number has at most one decimal point, so a string with two is no number. */
  lemma TwoPointsNoNumber(s: string)
    requires Count(s, '.') >= 2
    ensures Parse(s) == None
  {
    if Parse(s).Some? {
      ParseSplits(s);
      var k: nat, p: nat :| SplitsAsNumber(s, k, p);
      SplitPoints(s, k, p);
    }
  }

  /** Deleting the group separators of grouped digits leaves the digits. */
  lemma {:induction false} GroupRemoveAll(ds: string)
    requires AllDigits(ds)
    ensures RemoveAll(Group(ds), '.') == ds
    decreases |ds|
  {
    if |ds| <= 3 {
      DigitsCount(ds, '.');
      RemoveAllAbsent(ds, '.');
    } else {
      var a, b := ds[..|ds| - 3], ds[|ds| - 3..];
      assert Group(ds) == Group(a) + "." + b;
      GroupRemoveAll(a);
      RemoveAllConcat(Group(a) + ".", b, '.');
      RemoveAllConcat(Group(a), ".", '.');
      RemoveAllPoint();
      DigitsCount(b, '.');
      RemoveAllAbsent(b, '.');
      assert a + "" + b == ds;
    }
  }

  /** Deleting the points of a Brazilian number keeps sign, digits and comma tail. */
  lemma RemovePointsParts(sign: string, ip: string, tailBR: string)
    requires sign == "" || sign == "-"
    requires AllDigits(ip) && Count(tailBR, '.') == 0
    ensures RemoveAll(sign + Group(ip) + tailBR, '.') == sign + ip + tailBR
  {
    RemoveAllConcat(sign + Group(ip), tailBR, '.');
    RemoveAllConcat(sign, Group(ip), '.');
    GroupRemoveAll(ip);
    assert RemoveAll(sign, '.') == sign;
    RemoveAllAbsent(tailBR, '.');
  }

  /** Turning the one comma of `sign + digits + "," + fraction` into a point. */
  lemma ReplaceCommaParts(head: string, fp: string)
    requires forall i :: 0 <= i < |head| ==> head[i] != ','
    requires AllDigits(fp)
    ensures ReplaceAll(head + ("," + fp), ',', '.') == head + ("." + fp)
  {
    var u, v := head + ("," + fp), head + ("." + fp);
    forall i | 0 <= i < |u|
      ensures ReplaceAll(u, ',', '.')[i] == v[i]
    {
      if i > |head| {
        assert u[i] == fp[i - |head| - 1] == v[i];
      }
    }
  }

  /** No comma in a sign followed by digits. */
  lemma SignDigitsNoComma(sign: string, ip: string)
    requires sign == "" || sign == "-"
    requires AllDigits(ip)
    ensures forall i :: 0 <= i < |sign + ip| ==> (sign + ip)[i] != ','
  {
    forall i | 0 <= i < |sign + ip| ensures (sign + ip)[i] != ',' {
      if i >= |sign| {
        assert (sign + ip)[i] == ip[i - |sign|];
      }
    }
  }

  /** The comma tail of a Brazilian number holds no point. */
  lemma CommaTailNoPoint(fp: string)
    requires AllDigits(fp)
    ensures Count("," + fp, '.') == 0
  {
    assert "," + fp == [','] + fp;
    CountConcat([','], fp, '.');
    DigitsCount(fp, '.');
  }

  /** An ungrouped Brazilian number such as `1234,56`, which `FormatBR` never writes, is rewritten to plain text too. */
  lemma RewriteUngrouped(ip: string, fp: string)
    requires AllDigits(ip) && AllDigits(fp)
    ensures Rewrite(ip + ("," + fp)) == ip + ("." + fp)
  {
    CountConcat(ip, "," + fp, '.');
    DigitsCount(ip, '.');
    CommaTailNoPoint(fp);
    RemoveAllAbsent(ip + ("," + fp), '.');
    SignDigitsNoComma("", ip);
    assert "" + ip == ip;
    ReplaceCommaParts(ip, fp);
  }

  /** The rewrite of a Brazilian number with a fraction. */
  lemma RewriteWithFraction(sign: string, ip: string, fp: string)
    requires sign == "" || sign == "-"
    requires AllDigits(ip) && AllDigits(fp)
    ensures Rewrite(sign + Group(ip) + ("," + fp)) == sign + ip + ("." + fp)
  {
    CommaTailNoPoint(fp);
    RemovePointsParts(sign, ip, "," + fp);
    SignDigitsNoComma(sign, ip);
    ReplaceCommaParts(sign + ip, fp);
  }

  /** The rewrite of a Brazilian integer. */
  lemma RewriteWithoutFraction(sign: string, ip: string)
    requires sign == "" || sign == "-"
    requires AllDigits(ip)
    ensures Rewrite(sign + Group(ip) + "") == sign + ip + ""
  {
    RemovePointsParts(sign, ip, "");
    assert sign + ip + "" == sign + ip;
    SignDigitsNoComma(sign, ip);
    ReplaceAllAbsent(sign + ip, ',', '.');
  }

  /**
   * Rewriting the separators of the Brazilian text of a decimal (delete
   * every `.`, turn `,` into `.`) gives its plain text.
   */
  lemma RewriteFormatBR(d: Decimal)
    ensures Rewrite(FormatBR(d)) == Format(d)
  {
    if d.scale == 0 {
      RewriteWithoutFraction(SignText(d), IntegerDigits(d));
    } else {
      RewriteWithFraction(SignText(d), IntegerDigits(d), FractionDigits(d));
    }
  }

  /** One thousand two hundred and thirty-four, grouped. */
  lemma GroupExample()
    ensures Group("1234") == "1.234"
  {
    assert "1234"[..1] == "1" && "1234"[1..] == "234";
  }

  /** The rewrite of `1.234,56`: the point goes, the comma becomes the point. */
  lemma RewriteExampleThousands()
    ensures Rewrite("1.234,56") == "1234.56"
  {
    assert AllDigits("1234") && AllDigits("56");
    GroupExample();
    RewriteWithFraction("", "1234", "56");
    assert "" + "1.234" + ("," + "56") == "1.234,56";
    assert "" + "1234" + ("." + "56") == "1234.56";
  }

  /** The rewrite of `0,10`: the comma becomes the point and both fraction digits stay. */
  lemma RewriteExampleCents()
    ensures Rewrite("0,10") == "0.10"
  {
    assert AllDigits("0") && AllDigits("10");
    assert Group("0") == "0";
    RewriteWithFraction("", "0", "10");
    assert "" + "0" + ("," + "10") == "0,10";
    assert "" + "0" + ("." + "10") == "0.10";
  }

  /** The Brazilian text of any decimal is read back as that decimal. */
  lemma BrazilianRoundTrip(d: Decimal)
    ensures Parse(Rewrite(FormatBR(d))) == Some(d)
  {
    RewriteFormatBR(d);
    ParseFormat(d);
  }

  /** A digit string with a point and a fraction is read with one fraction digit per scale step. */
  lemma ParsePointed(ip: string, fp: string)
    requires |ip| > 0 && AllDigits(ip) && AllDigits(fp)
    ensures AllDigits(ip + fp)
    ensures Parse(ip + ("." + fp)) == Some(Decimal(DigitsValue(ip + fp), |fp|))
  {
    ParseUnsignedPointed(ip, fp);
    ParseSigned("", ip + ("." + fp));
    assert "" + (ip + ("." + fp)) == ip + ("." + fp);
  }

  /** A digit string without a point is read as an integer. */
  lemma ParseInteger(ip: string)
    requires |ip| > 0 && AllDigits(ip)
    ensures Parse(ip) == Some(Decimal(DigitsValue(ip), 0))
  {
    ParseUnsignedInteger(ip);
    ParseSigned("", ip);
    assert "" + ip == ip;
  }

  /** Appending a digit multiplies by ten and adds it. */
  lemma DigitsValueSnoc(s: string, c: char)
    requires AllDigits(s) && IsDigit(c)
    ensures AllDigits(s + [c]) && DigitsValue(s + [c]) == DigitsValue(s) * 10 + DigitValue(c)
  {
    assert (s + [c])[..|s|] == s;
  }

  /** The value of the digit string `010`. */
  lemma DigitsValueCents()
    ensures AllDigits("010") && DigitsValue("010") == 10
  {
    DigitsValueSnoc("", '0'); assert "" + ['0'] == "0";
    DigitsValueSnoc("0", '1'); assert "0" + ['1'] == "01";
    DigitsValueSnoc("01", '0'); assert "01" + ['0'] == "010";
  }

  /** The value of the digit string `15`. */
  lemma DigitsValueFifteen()
    ensures AllDigits("15") && DigitsValue("15") == 15
  {
    DigitsValueSnoc("", '1'); assert "" + ['1'] == "1";
    DigitsValueSnoc("1", '5'); assert "1" + ['5'] == "15";
  }

  /** The value of the digit string `123456`. */
  lemma DigitsValueThousands()
    ensures AllDigits("123456") && DigitsValue("123456") == 123456
  {
    DigitsValueSnoc("", '1'); assert "" + ['1'] == "1";
    DigitsValueSnoc("1", '2'); assert "1" + ['2'] == "12";
    DigitsValueSnoc("12", '3'); assert "12" + ['3'] == "123";
    DigitsValueSnoc("123", '4'); assert "123" + ['4'] == "1234";
    DigitsValueSnoc("1234", '5'); assert "1234" + ['5'] == "12345";
    DigitsValueSnoc("12345", '6'); assert "12345" + ['6'] == "123456";
  }

  /** `1234.56` is read with six digits and scale two. */
  lemma ParseExampleThousands()
    ensures Parse("1234.56") == Some(Decimal(123456, 2))
  {
    DigitsValueThousands();
    ParsePointed("1234", "56");
    assert "1234" + ("." + "56") == "1234.56";
    assert "1234" + "56" == "123456";
  }

  /** `0.10` is read as ten hundredths, keeping its scale of two. */
  lemma ParseExampleCents()
    ensures Parse("0.10") == Some(Decimal(10, 2))
  {
    DigitsValueCents();
    ParsePointed("0", "10");
    assert "0" + ("." + "10") == "0.10";
    assert "0" + "10" == "010";
  }

  /** `15` is read as an integer and `abc` is no number. */
  lemma ParseExamplesOther()
    ensures Parse("15") == Some(Decimal(15, 0))
    ensures Parse("abc") == None
  {
    DigitsValueFifteen();
    ParseInteger("15");
    assert IndexOf("abc", '.') == 3;
  }

  /** A leading zero and a sign are read by value: `-05` is minus five. */
  lemma ParseExampleLeadingZero()
    ensures Parse("-05") == Some(Decimal(-5, 0))
  {
    DigitsValueSnoc("", '0'); assert "" + ['0'] == "0";
    DigitsValueSnoc("0", '5'); assert "0" + ['5'] == "05";
    assert "-05"[1..3] == "05" && "-05"[3..] == [];
    ParseValue("-05", 1, 3);
  }

  /** A fraction without integer digits: `.5` is five tenths. */
  lemma ParseExampleBareFraction()
    ensures Parse(".5") == Some(Decimal(5, 1))
  {
    DigitsValueSnoc("", '5'); assert "" + ['5'] == "5";
    assert ".5"[0..0] == [] && ".5"[0..] == ".5" && ".5"[1..] == "5";
    ParseValue(".5", 0, 0);
  }

  /** A trailing point adds no fraction digit: `+5.` is five. */
  lemma ParseExampleTrailingPoint()
    ensures Parse("+5.") == Some(Decimal(5, 0))
  {
    DigitsValueSnoc("", '5'); assert "" + ['5'] == "5";
    assert "+5."[1..2] == "5" && "+5."[2..] == "." && "+5."[3..] == [];
    ParseValue("+5.", 1, 2);
  }

  /** The digits of fifteen. */
  lemma NatDigitsExample()
    ensures NatDigits(15) == "15"
  {
    assert DigitChar(5) == '5' && DigitChar(1) == '1';
    assert NatDigits(1) == "1";
    assert [DigitChar(1)] + [DigitChar(5)] == "15";
  }

  /** One and a half is written `1.5`, and `1.5` reads back as one and a half. */
  lemma FormatExample()
    ensures Format(Decimal(15, 1)) == "1.5"
    ensures Parse("1.5") == Some(Decimal(15, 1))
  {
    NatDigitsExample();
    assert Zeros(0) == "";
    assert Padded("15", 2) == "15";
    assert AllDigitsOf(Decimal(15, 1)) == "15";
    assert "15"[..1] == "1" && "15"[1..] == "5";
    assert IntegerDigits(Decimal(15, 1)) == "1";
    assert FractionDigits(Decimal(15, 1)) == "5";
    ParseFormat(Decimal(15, 1));
  }
}
