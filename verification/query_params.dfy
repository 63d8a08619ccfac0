/** The query-parameter helper that turns `"1,2,3"` into `[1, 2, 3]`:
    `favorite_list.split(',')` followed by `int()` on every segment.

    `int()` is modelled on an explicit ASCII grammar: optional surrounding
    whitespace, an optional sign, then decimal digits in which single
    underscores may separate two digits. */
module QueryParams {
  import opened PyRuntime

  const Comma: char := ','

  predicate IsDigit(c: char) {
    '0' <= c <= '9'
  }

  // ---------------------------------------------------------------------
  // `str.split(',')` and its inverse `','.join(...)`

  /** The number of commas in `s`. */
  function CountCommas(s: string): nat {
    if |s| == 0 then 0 else (if s[0] == Comma then 1 else 0) + CountCommas(s[1..])
  }

  /** `','.join(segments)`. */
  function Join(segments: seq<string>): string
    requires |segments| > 0
  {
    if |segments| == 1 then segments[0] else segments[0] + [Comma] + Join(segments[1..])
  }

  /** `s.split(',')`: always at least one segment, one more than there are
      commas, none containing a comma, and joining them gives `s` back. */
  function Split(s: string): (r: seq<string>)
    ensures |r| == CountCommas(s) + 1
    ensures forall i :: 0 <= i < |r| ==> Comma !in r[i]
    ensures Join(r) == s
  {
    if |s| == 0 then [""]
    else
      var rest := Split(s[1..]);
      if s[0] == Comma then
        assert ([""] + rest)[1..] == rest;
        [""] + rest
      else
        var r := [[s[0]] + rest[0]] + rest[1..];
        assert |rest| > 1 ==> r[1..] == rest[1..];
        assert s == [s[0]] + s[1..];
        r
  }

  /** A string without commas is a single segment. */
  lemma {:induction false} SplitNoComma(x: string)
    requires Comma !in x
    ensures Split(x) == [x]
  {
    if |x| > 0 {
      assert Comma !in x[1..] by {
        forall k | 0 <= k < |x[1..]| ensures x[1..][k] != Comma {
          assert x[1..][k] == x[k + 1];
        }
      }
      SplitNoComma(x[1..]);
    }
  }

  /** Splitting distributes over a comma. */
  lemma {:induction false} SplitConcat(x: string, y: string)
    ensures Split(x + [Comma] + y) == Split(x) + Split(y)
  {
    var s := x + [Comma] + y;
    if |x| == 0 {
      assert s == [Comma] + y;
      assert s[1..] == y;
    } else {
      assert s[0] == x[0];
      assert s[1..] == x[1..] + [Comma] + y;
      SplitConcat(x[1..], y);
    }
  }

  /** Splitting undoes joining, for segments without commas. */
  lemma {:induction false} SplitJoin(segments: seq<string>)
    requires |segments| > 0
    requires forall i :: 0 <= i < |segments| ==> Comma !in segments[i]
    ensures Split(Join(segments)) == segments
  {
    SplitNoComma(segments[0]);
    if |segments| > 1 {
      SplitJoin(segments[1..]);
      SplitConcat(segments[0], Join(segments[1..]));
      assert segments == [segments[0]] + segments[1..];
    }
  }

  // ---------------------------------------------------------------------
  // `int()` on ASCII integer literals

  /** The most digits `int()` converts from a string: CPython's default for
      `sys.get_int_max_str_digits()`. A longer literal raises `ValueError`. */
  const MaxStrDigits: nat := 4300

  /** The whitespace `int()` strips around a literal: tab, line feed,
      vertical tab, form feed, carriage return and space, and every
      non-ASCII `str.isspace` character. The ASCII separators U+001C to
      U+001F are whitespace to `str.split()` but not to `int()`. */
  predicate IsIntSpace(c: char) {
    IsSpace(c) && !('\U{001C}' <= c <= '\U{001F}')
  }

  predicate AllIntSpace(s: string) {
    forall k :: 0 <= k < |s| ==> IsIntSpace(s[k])
  }

  /** Decimal digits in which single underscores may stand between two digits. */
  predicate DigitGroups(b: string) {
    && |b| > 0
    && (forall k :: 0 <= k < |b| ==> IsDigit(b[k]) || b[k] == '_')
    && (forall k :: 0 <= k < |b| && b[k] == '_' ==> 0 < k < |b| - 1 && IsDigit(b[k - 1]) && IsDigit(b[k + 1]))
  }

  predicate IsSign(c: char) {
    c == '+' || c == '-'
  }

  /** An optional sign followed by digit groups, with no whitespace. */
  predicate SignedLiteral(t: string) {
    |t| > 0 && if IsSign(t[0]) then DigitGroups(t[1..]) else DigitGroups(t)
  }

  /** The number of digits of a literal; neither the sign nor the
      underscores count. */
  function DigitCount(t: string): nat {
    |DropUnderscores(if |t| > 0 && IsSign(t[0]) then t[1..] else t)|
  }

  /** `s[i..j]` is a literal within the digit limit, and everything around it
      is whitespace that `int()` strips. */
  predicate LiteralAt(s: string, i: int, j: int) {
    && 0 <= i <= j <= |s|
    && AllIntSpace(s[..i]) && AllIntSpace(s[j..])
    && SignedLiteral(s[i..j]) && DigitCount(s[i..j]) <= MaxStrDigits
  }

  /** `s` is what `int()` accepts here: a literal within the digit limit
      between two runs of whitespace. */
  ghost predicate IntLiteral(s: string) {
    exists i, j :: LiteralAt(s, i, j)
  }

  /** Every segment is an integer literal. */
  ghost predicate AllLiterals(segments: seq<string>) {
    forall i :: 0 <= i < |segments| ==> IntLiteral(segments[i])
  }

  /** The digits of `b`, underscores dropped. */
  function DropUnderscores(b: string): string {
    if |b| == 0 then []
    else DropUnderscores(b[..|b| - 1]) + (if b[|b| - 1] == '_' then [] else [b[|b| - 1]])
  }

  /** The value of a string of decimal digits, most significant first. */
  function DigitsValue(d: string): nat {
    if |d| == 0 then 0
    else
      var last := d[|d| - 1];
      DigitsValue(d[..|d| - 1]) * 10 + (if IsDigit(last) then (last as int) - ('0' as int) else 0)
  }

  /** The value a signed literal denotes. */
  function LiteralValue(t: string): int {
    if |t| > 0 && t[0] == '-' then -(DigitsValue(DropUnderscores(t[1..])) as int)
    else if |t| > 0 && t[0] == '+' then DigitsValue(DropUnderscores(t[1..]))
    else DigitsValue(DropUnderscores(t))
  }

  /** The number of leading whitespace characters. */
  function LeadingSpace(s: string): (k: nat)
    ensures k <= |s| && AllIntSpace(s[..k])
    ensures k < |s| ==> !IsIntSpace(s[k])
  {
    if |s| == 0 || !IsIntSpace(s[0]) then 0
    else
      var k := 1 + LeadingSpace(s[1..]);
      assert forall m :: 1 <= m < k ==> s[..k][m] == s[1..][..k - 1][m - 1];
      k
  }

  /** The length of `s` without its trailing whitespace. */
  function TrailingStart(s: string): (k: nat)
    ensures k <= |s| && AllIntSpace(s[k..])
    ensures k > 0 ==> !IsIntSpace(s[k - 1])
  {
    if |s| == 0 || !IsIntSpace(s[|s| - 1]) then |s|
    else
      var k := TrailingStart(s[..|s| - 1]);
      assert forall m :: k <= m < |s| - 1 ==> s[m] == s[..|s| - 1][m];
      k
  }

  /** `s.strip()` with the whitespace `int()` strips. */
  function Strip(s: string): string {
    var i := LeadingSpace(s);
    var j := TrailingStart(s);
    if i < j then s[i..j] else []
  }

  /** A signed literal starts and ends with a non-space character. */
  lemma SignedLiteralEnds(t: string)
    requires SignedLiteral(t)
    ensures !IsSpace(t[0]) && !IsSpace(t[|t| - 1])
  {
    var b := if IsSign(t[0]) then t[1..] else t;
    assert b[|b| - 1] == t[|t| - 1];
    assert IsDigit(b[|b| - 1]);
  }

  /** Leading whitespace ends at the first non-space character. */
  lemma {:induction false} LeadingSpaceAt(s: string, i: int)
    requires 0 <= i < |s| && AllIntSpace(s[..i]) && !IsIntSpace(s[i])
    ensures LeadingSpace(s) == i
    decreases i
  {
    if i > 0 {
      var q := s[1..];
      assert IsIntSpace(s[0]) by { assert s[0] == s[..i][0]; }
      var w := q[..i - 1];
      assert AllIntSpace(w) by {
        forall m | 0 <= m < |w| ensures IsIntSpace(w[m]) {
          assert w[m] == s[..i][m + 1];
        }
      }
      assert q[i - 1] == s[i];
      LeadingSpaceAt(q, i - 1);
    }
  }

  /** Trailing whitespace starts after the last non-space character. */
  lemma {:induction false} TrailingStartAt(s: string, j: int)
    requires 0 < j <= |s| && AllIntSpace(s[j..]) && !IsIntSpace(s[j - 1])
    ensures TrailingStart(s) == j
    decreases |s|
  {
    if j < |s| {
      var p := s[..|s| - 1];
      assert IsIntSpace(s[|s| - 1]) by { assert s[|s| - 1] == s[j..][|s| - 1 - j]; }
      var w := p[j..];
      assert AllIntSpace(w) by {
        forall m | 0 <= m < |w| ensures IsIntSpace(w[m]) {
          assert w[m] == s[j..][m];
        }
      }
      assert p[j - 1] == s[j - 1];
      TrailingStartAt(p, j);
    }
  }

  /** Whatever the surrounding whitespace, stripping finds the literal. */
  lemma StripFindsLiteral(s: string, i: int, j: int)
    requires LiteralAt(s, i, j)
    ensures Strip(s) == s[i..j]
  {
    SignedLiteralEnds(s[i..j]);
    assert s[i] == s[i..j][0];
    assert s[j - 1] == s[i..j][j - i - 1];
    LeadingSpaceAt(s, i);
    TrailingStartAt(s, j);
  }

  /** `int(s)` for one segment, `None` where Python raises `ValueError`: it
      accepts exactly the literals, and wherever the literal sits between the
      whitespace it gives that literal's value. */
  function ParseInt(s: string): (r: Option<int>)
    ensures r.Some? <==> IntLiteral(s)
    ensures forall i, j :: LiteralAt(s, i, j) ==> r == Some(LiteralValue(s[i..j]))
  {
    var t := Strip(s);
    assert SignedLiteral(t) ==> LeadingSpace(s) < TrailingStart(s);
    assert SignedLiteral(t) && DigitCount(t) <= MaxStrDigits ==> LiteralAt(s, LeadingSpace(s), TrailingStart(s));
    assert forall i, j :: LiteralAt(s, i, j) ==> t == s[i..j] by {
      forall i, j | LiteralAt(s, i, j) ensures t == s[i..j] {
        StripFindsLiteral(s, i, j);
      }
    }
    if SignedLiteral(t) && DigitCount(t) <= MaxStrDigits then Some(LiteralValue(t)) else None
  }

  // ---------------------------------------------------------------------
  // `parse_query_parameters_as_list_int`

  /** Segment `i` is the first one that `parse` refuses. */
  predicate FirstFailure(parse: string -> Option<int>, segments: seq<string>, i: int) {
    && 0 <= i < |segments| && parse(segments[i]).None?
    && forall k :: 0 <= k < i ==> parse(segments[k]).Some?
  }

  /** `[parse(x) for x in segments]`, for an element parser that either
      gives a value or raises `ValueError`: every value in order, or the
      `ValueError` of the first segment that does not parse. */
  function Collect(parse: string -> Option<int>, segments: seq<string>): (r: Result<seq<int>>)
    ensures r.Success? <==> forall i :: 0 <= i < |segments| ==> parse(segments[i]).Some?
    ensures r.Success? ==> |r.value| == |segments|
    ensures r.Success? ==> forall i :: 0 <= i < |segments| ==> parse(segments[i]) == Some(r.value[i])
    ensures r.Failure? ==> exists i :: FirstFailure(parse, segments, i) && r.exception == ValueError(segments[i])
  {
    if |segments| == 0 then Success([])
    else
      var head := segments[0];
      var tail := segments[1..];
      match parse(head)
      case None =>
        assert FirstFailure(parse, segments, 0);
        Failure(ValueError(head))
      case Some(v) =>
        match Collect(parse, tail)
        case Success(vs) =>
          Success([v] + vs)
        case Failure(e) =>
          assert exists i :: FirstFailure(parse, segments, i) && e == ValueError(segments[i]) by {
            var k :| FirstFailure(parse, tail, k) && e == ValueError(tail[k]);
            assert segments[k + 1] == tail[k];
            forall m | 0 <= m < k + 1 ensures parse(segments[m]).Some? {
              if m > 0 {
                assert segments[m] == tail[m - 1];
              }
            }
            assert FirstFailure(parse, segments, k + 1);
          }
          Failure(e)
  }

  /** `[int(x) for x in segments]`. */
  function ParseAll(segments: seq<string>): (r: Result<seq<int>>)
    ensures r.Success? <==> forall i :: 0 <= i < |segments| ==> ParseInt(segments[i]).Some?
    ensures r.Success? ==> |r.value| == |segments|
    ensures r.Success? ==> forall i :: 0 <= i < |segments| ==> ParseInt(segments[i]) == Some(r.value[i])
    ensures r.Failure? ==> exists i :: FirstFailure(ParseInt, segments, i) && r.exception == ValueError(segments[i])
  {
    Collect(ParseInt, segments)
  }

  /** Segment `i` is the first one that is not an integer literal. */
  ghost predicate FirstNonLiteral(segments: seq<string>, i: int) {
    && 0 <= i < |segments| && !IntLiteral(segments[i])
    && forall k :: 0 <= k < i ==> IntLiteral(segments[k])
  }

  /** `parse_query_parameters_as_list_int`: one integer per comma-separated
      segment, in order, or the `ValueError` of the first segment that is not
      a literal. */
  function ParseIdList(s: string): (r: Result<seq<int>>)
    ensures r.Success? <==> AllLiterals(Split(s))
    ensures r.Success? ==> |r.value| == CountCommas(s) + 1
    ensures r.Success? ==> forall i :: 0 <= i < |r.value| ==> ParseInt(Split(s)[i]) == Some(r.value[i])
    ensures r.Failure? ==> exists i :: FirstNonLiteral(Split(s), i) && r.exception == ValueError(Split(s)[i])
  {
    var segments := Split(s);
    var r := ParseAll(segments);
    assert r.Failure? ==> exists i :: FirstNonLiteral(segments, i) && r.exception == ValueError(segments[i]) by {
      if r.Failure? {
        var i :| FirstFailure(ParseInt, segments, i) && r.exception == ValueError(segments[i]);
        assert FirstNonLiteral(segments, i);
      }
    }
    r
  }

  // ---------------------------------------------------------------------
  // Rendering integers, and the round trip through the parser

  function DigitChar(d: nat): char
    requires d < 10
  {
    ('0' as int + d) as char
  }

  /** The decimal rendering of a natural number, without leading zeros. */
  function NatToString(n: nat): (r: string)
    ensures |r| > 0 && forall k :: 0 <= k < |r| ==> IsDigit(r[k])
  {
    if n < 10 then [DigitChar(n)] else NatToString(n / 10) + [DigitChar(n % 10)]
  }

  /** `str(x)` for an integer. */
  function IntToString(x: int): string {
    if x < 0 then "-" + NatToString(-x) else NatToString(x)
  }

  /** `str(x)` stays within the digit limit; beyond it CPython's `str`
      raises `ValueError` as well. */
  predicate Printable(x: int) {
    |NatToString(if x < 0 then -x else x)| <= MaxStrDigits
  }

  /** `[str(x) for x in xs]`. */
  function RenderAll(xs: seq<int>): (r: seq<string>)
    ensures |r| == |xs|
  {
    seq(|xs|, i requires 0 <= i < |xs| => IntToString(xs[i]))
  }

  lemma {:induction false} DigitsValueOfRendering(n: nat)
    ensures DigitsValue(NatToString(n)) == n
  {
    if n >= 10 {
      var r := NatToString(n);
      assert r[..|r| - 1] == NatToString(n / 10);
      DigitsValueOfRendering(n / 10);
    }
  }

  lemma {:induction false} DropUnderscoresOfDigits(d: string)
    requires forall k :: 0 <= k < |d| ==> IsDigit(d[k])
    ensures DropUnderscores(d) == d
  {
    if |d| > 0 {
      DropUnderscoresOfDigits(d[..|d| - 1]);
      assert d == d[..|d| - 1] + [d[|d| - 1]];
    }
  }

  /** A rendered integer is a signed literal denoting that integer, with as
      many digits as the rendering of its magnitude. */
  lemma RenderingIsLiteral(x: int)
    ensures SignedLiteral(IntToString(x)) && LiteralValue(IntToString(x)) == x
    ensures DigitCount(IntToString(x)) == |NatToString(if x < 0 then -x else x)|
  {
    var s := IntToString(x);
    var n: nat := if x < 0 then -x else x;
    var digits := NatToString(n);
    DigitsValueOfRendering(n);
    PlainDigitsLiteral(digits);
    PlainDigitsValue(digits);
    assert !IsSign(digits[0]);
    if x < 0 {
      assert s[0] == '-' && s[1..] == digits;
    } else {
      assert s == digits;
    }
  }

  /** `int(str(x)) == x` whenever `str(x)` does not raise. */
  lemma ParseRendering(x: int)
    requires Printable(x)
    ensures ParseInt(IntToString(x)) == Some(x)
  {
    var s := IntToString(x);
    RenderingIsLiteral(x);
    assert s[..0] == [] && s[|s|..] == [] && s[0..|s|] == s;
    assert LiteralAt(s, 0, |s|);
  }

  /** A rendered integer contains no comma. */
  lemma RenderingHasNoComma(x: int)
    ensures Comma !in IntToString(x)
  {
    var s := IntToString(x);
    var digits := NatToString(if x < 0 then -x else x);
    assert forall k :: 0 <= k < |s| ==> s[k] == '-' || IsDigit(s[k]) by {
      if x < 0 {
        assert forall k :: 1 <= k < |s| ==> s[k] == digits[k - 1];
      }
    }
  }

  /** Joining the renderings of a non-empty list with commas and parsing the
      result gives the list back. */
  lemma {:induction false} ParseIdListRoundTrip(xs: seq<int>)
    requires |xs| > 0
    requires forall i :: 0 <= i < |xs| ==> Printable(xs[i])
    ensures ParseIdList(Join(RenderAll(xs))) == Success(xs)
  {
    var segments := RenderAll(xs);
    forall i | 0 <= i < |segments| ensures Comma !in segments[i] && ParseInt(segments[i]) == Some(xs[i]) {
      RenderingHasNoComma(xs[i]);
      ParseRendering(xs[i]);
    }
    SplitJoin(segments);
    var r := ParseAll(segments);
    assert r.Success?;
    assert r.value == xs;
  }

  /** The example the route documents: "1,2,3" is [1, 2, 3]. */
  lemma ParseExample()
    ensures ParseIdList("1,2,3") == Success([1, 2, 3])
  {
    assert Printable(1) && Printable(2) && Printable(3);
    assert RenderAll([1, 2, 3]) == ["1", "2", "3"];
    assert Join(["1", "2", "3"]) == "1,2,3";
    ParseIdListRoundTrip([1, 2, 3]);
  }

  /** An empty segment is no literal, so it fails the whole list. */
  lemma EmptySegmentFails(s: string, k: int)
    requires 0 <= k < |Split(s)| && Split(s)[k] == ""
    ensures ParseIdList(s).Failure?
  {
    assert !IntLiteral("");
  }

  /** Empty input is one empty segment, so it fails. */
  lemma EmptyInputFails()
    ensures ParseIdList("").Failure?
  {
    EmptySegmentFails("", 0);
  }

  /** A leading comma makes an empty first segment, so it fails. */
  lemma LeadingCommaFails(y: string)
    ensures ParseIdList([Comma] + y).Failure?
  {
    var s := [Comma] + y;
    assert s[1..] == y;
    assert Split(s)[0] == "";
    EmptySegmentFails(s, 0);
  }

  /** A trailing comma makes an empty last segment, so it fails. */
  lemma TrailingCommaFails(x: string)
    ensures ParseIdList(x + [Comma]).Failure?
  {
    SplitConcat(x, "");
    assert x + [Comma] + "" == x + [Comma];
    assert Split(x + [Comma])[|Split(x)|] == "";
    EmptySegmentFails(x + [Comma], |Split(x)|);
  }

  /** A doubled comma makes an empty inner segment, so it fails. */
  lemma DoubledCommaFails(x: string, y: string)
    ensures ParseIdList(x + [Comma, Comma] + y).Failure?
  {
    var s := x + [Comma, Comma] + y;
    assert s == x + [Comma] + ([Comma] + y);
    SplitConcat(x, [Comma] + y);
    assert ([Comma] + y)[1..] == y;
    assert Split(s)[|Split(x)|] == "";
    EmptySegmentFails(s, |Split(x)|);
  }

  /** A segment that neither starts nor ends with whitespace `int()` strips
      is its own stripped form. */
  lemma StripWithoutSpace(s: string)
    requires |s| > 0 ==> !IsIntSpace(s[0]) && !IsIntSpace(s[|s| - 1])
    ensures Strip(s) == s
  {
    if |s| > 0 {
      assert s[0..|s|] == s;
    }
  }

  /** A literal with whitespace on either side sits right after the leading run. */
  lemma LiteralBetween(a: string, t: string, b: string)
    requires AllIntSpace(a) && AllIntSpace(b) && SignedLiteral(t) && DigitCount(t) <= MaxStrDigits
    ensures LiteralAt(a + t + b, |a|, |a| + |t|)
  {
    var s := a + t + b;
    assert s[..|a|] == a && s[|a| + |t|..] == b && s[|a|..|a| + |t|] == t;
  }

  /** In " -7\n" the literal "-7" sits between a space and a newline. */
  lemma MinusSevenAt()
    ensures LiteralAt(" -7\n", 1, 3)
    ensures LiteralValue(" -7\n"[1..3]) == -7
  {
    assert AllIntSpace(" ") by { assert IsIntSpace(' '); }
    assert AllIntSpace("\n") by { assert IsIntSpace('\n'); }
    assert SignedLiteral("-7") && DigitCount("-7") == 1 by {
      assert "-7"[1..] == "7" && "7"[..0] == [];
    }
    LiteralBetween(" ", "-7", "\n");
    assert " " + "-7" + "\n" == " -7\n";
    assert " -7\n"[1..3] == "-7";
  }

  /** Surrounding whitespace is dropped before the literal is read. */
  lemma SurroundingSpaceExample()
    ensures ParseInt(" -7\n") == Some(-7)
  {
    MinusSevenAt();
  }

  /** The digits of "1_0". */
  lemma TenDigits()
    ensures DigitGroups("1_0")
    ensures DropUnderscores("1_0") == "10"
    ensures DigitsValue("10") == 10
  {
    assert "1_0"[..2] == "1_" && "1_"[..1] == "1" && "1"[..0] == [];
    assert "10"[..1] == "1";
  }

  /** A single underscore may separate digits. */
  lemma UnderscoreExample()
    ensures ParseInt("+1_0") == Some(10)
  {
    var s := "+1_0";
    TenDigits();
    assert s[..0] == [] && s[4..] == [] && s[0..4] == s && s[1..] == "1_0";
    assert DigitCount(s) == 2;
    assert LiteralAt(s, 0, 4);
  }

  /** A run of plain digits is its own stripped form. */
  lemma PlainDigitsStrip(d: string)
    requires |d| > 0 && forall k :: 0 <= k < |d| ==> IsDigit(d[k])
    ensures Strip(d) == d
  {
    assert IsDigit(d[0]) && IsDigit(d[|d| - 1]);
    StripWithoutSpace(d);
  }

  /** A run of plain digits is an unsigned literal. */
  lemma PlainDigitsLiteral(d: string)
    requires |d| > 0 && forall k :: 0 <= k < |d| ==> IsDigit(d[k])
    ensures SignedLiteral(d)
  {
    assert !IsSign(d[0]);
    assert forall k :: 0 <= k < |d| ==> d[k] != '_';
  }

  /** A run of plain digits has one digit per character and denotes its
      decimal value. */
  lemma PlainDigitsValue(d: string)
    requires |d| > 0 && forall k :: 0 <= k < |d| ==> IsDigit(d[k])
    ensures DigitCount(d) == |d| && LiteralValue(d) == DigitsValue(d)
  {
    assert IsDigit(d[0]);
    DropUnderscoresOfDigits(d);
    assert !IsSign(d[0]);
  }

  /** A run of plain digits parses exactly when it has at most
      `MaxStrDigits` digits, and then to its decimal value. */
  lemma DigitLimit(d: string)
    requires |d| > 0 && forall k :: 0 <= k < |d| ==> IsDigit(d[k])
    ensures ParseInt(d).Some? <==> |d| <= MaxStrDigits
    ensures |d| <= MaxStrDigits ==> ParseInt(d) == Some(DigitsValue(d))
  {
    PlainDigitsStrip(d);
    PlainDigitsLiteral(d);
    PlainDigitsValue(d);
  }

  /** A doubled, leading or trailing underscore, or a bare sign, is not a
      literal. */
  lemma RejectedExamples()
    ensures ParseInt("1__0") == None
    ensures ParseInt("_1") == None
    ensures ParseInt("1_") == None
    ensures ParseInt("-") == None
  {
    StripWithoutSpace("1__0");
    StripWithoutSpace("_1");
    StripWithoutSpace("1_");
    StripWithoutSpace("-");
    assert "1__0"[1] == '_' && !IsDigit("1__0"[2]);
    assert "_1"[0] == '_';
    assert "1_"[1] == '_';
  }

  /** The separator U+001C splits words for `str.split()`, but `int()` does
      not strip it. */
  lemma SeparatorNotStripped()
    ensures IsSpace('\U{001C}')
    ensures ParseInt("\U{001C}7") == None
  {
    StripWithoutSpace("\U{001C}7");
    assert !IsDigit("\U{001C}7"[0]);
  }
}
