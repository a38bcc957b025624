/**
 * The landmark readers of the swap engine: a points file holds one
 * landmark per line as two whitespace-separated integers, and a JSON
 * landmark file must hold a list at its top level.
 */
module PointFiles {
  import opened Wrappers
  import opened Geometry

  /** The characters `str.split()` with no separator treats as whitespace. */
  predicate IsSpace(c: char)
  {
    var n := c as int;
    9 <= n <= 13 || 28 <= n <= 32 || n == 0x85 || n == 0xA0 || n == 0x1680 ||
    0x2000 <= n <= 0x200A || n == 0x2028 || n == 0x2029 || n == 0x202F || n == 0x205F || n == 0x3000
  }

  /** A word: a non-empty run of non-whitespace characters. */
  predicate IsWord(w: string)
  {
    |w| > 0 && forall i :: 0 <= i < |w| ==> !IsSpace(w[i])
  }

  /** The length of the word that starts `s`: up to the first whitespace or the end. */
  function WordLength(s: string): (n: nat)
    ensures n <= |s|
    ensures forall i :: 0 <= i < n ==> !IsSpace(s[i])
    ensures n < |s| ==> IsSpace(s[n])
  {
    if |s| == 0 || IsSpace(s[0]) then 0 else 1 + WordLength(s[1..])
  }

  /** `s.split()`: the maximal runs of non-whitespace characters, in order. */
  function Words(s: string): (ws: seq<string>)
    ensures forall i :: 0 <= i < |ws| ==> IsWord(ws[i])
    decreases |s|
  {
    if |s| == 0 then []
    else if IsSpace(s[0]) then Words(s[1..])
    else
      var n := WordLength(s);
      [s[..n]] + Words(s[n..])
  }

  /** Splitting a line made of words joined by whitespace gives the words back. */
  lemma WordsOfLine(x: string, y: string)
    requires IsWord(x) && IsWord(y)
    ensures Words(x + " " + y + "\n") == [x, y]
  {
    var tail := " " + y + "\n";
    assert x + " " + y + "\n" == x + tail;
    WordFollowedBySpace(x, tail);
    assert tail[1..] == y + "\n";
    assert Words(tail) == Words(y + "\n");
    WordFollowedBySpace(y, "\n");
    assert Words("\n") == Words("\n"[1..]) == [];
  }

  /** A word followed by whitespace is split off as one word. */
  lemma {:induction false} WordFollowedBySpace(w: string, rest: string)
    requires IsWord(w) && |rest| > 0 && IsSpace(rest[0])
    ensures WordLength(w + rest) == |w|
    ensures Words(w + rest) == [w] + Words(rest)
    decreases |w|
  {
    if |w| > 1 {
      WordFollowedBySpace(w[1..], rest);
      assert (w + rest)[1..] == w[1..] + rest;
    } else {
      assert (w + rest)[1..] == rest;
    }
    assert (w + rest)[..|w|] == w;
    assert (w + rest)[|w|..] == rest;
  }

  /** Every character of `s` is whitespace (the empty string included). */
  predicate AllSpace(s: string)
  {
    forall i :: 0 <= i < |s| ==> IsSpace(s[i])
  }

  /** Leading whitespace is skipped: it contributes no word. */
  lemma {:induction false} WordsSkipSpace(sp: string, s: string)
    requires AllSpace(sp)
    ensures Words(sp + s) == Words(s)
    decreases |sp|
  {
    if |sp| > 0 {
      assert (sp + s)[0] == sp[0];
      assert (sp + s)[1..] == sp[1..] + s;
      WordsSkipSpace(sp[1..], s);
    } else {
      assert sp + s == s;
    }
  }

  /** A word on its own splits into itself. */
  lemma WordAlone(w: string)
    requires IsWord(w)
    ensures Words(w) == [w]
  {
    assert WordLength(w) == |w|;
    assert w[..|w|] == w && w[|w|..] == [];
  }

  /** Words `ws`, word `i` followed by the separator `seps[i]`. */
  function Spaced(ws: seq<string>, seps: seq<string>): string
    requires |seps| == |ws|
  {
    if |ws| == 0 then [] else ws[0] + seps[0] + Spaced(ws[1..], seps[1..])
  }

  /**
   * `str.split()` recovers the words of any line built from them: optional
   * leading whitespace, then the words, each followed by a non-empty run of
   * whitespace, except that the last one may end the line.
   */
  lemma {:induction false} WordsOfSpaced(lead: string, ws: seq<string>, seps: seq<string>)
    requires |seps| == |ws| && AllSpace(lead)
    requires forall i :: 0 <= i < |ws| ==> IsWord(ws[i])
    requires forall i :: 0 <= i < |seps| ==> AllSpace(seps[i])
    requires forall i :: 0 <= i < |seps| - 1 ==> |seps[i]| > 0
    ensures Words(lead + Spaced(ws, seps)) == ws
    decreases |ws|
  {
    WordsSkipSpace(lead, Spaced(ws, seps));
    if |ws| > 0 {
      var rest := Spaced(ws[1..], seps[1..]);
      var tail := seps[0] + rest;
      assert Spaced(ws, seps) == ws[0] + tail;
      WordsOfSpaced(seps[0], ws[1..], seps[1..]);
      if |tail| > 0 {
        assert |seps[0]| > 0;
        assert tail[0] == seps[0][0];
        WordFollowedBySpace(ws[0], tail);
      } else {
        assert ws[0] + tail == ws[0];
        WordAlone(ws[0]);
      }
    }
  }

  predicate IsDigit(c: char)
  {
    '0' <= c <= '9'
  }

  function DigitValue(c: char): nat
    requires IsDigit(c)
  {
    (c as int) - ('0' as int)
  }

  predicate AllDigits(s: string)
  {
    forall i :: 0 <= i < |s| ==> IsDigit(s[i])
  }

  /** The value of a string of decimal digits, most significant first. */
  function DigitsValue(s: string): nat
    requires AllDigits(s)
  {
    if |s| == 0 then 0 else DigitsValue(s[..|s| - 1]) * 10 + DigitValue(s[|s| - 1])
  }

  /** `int(token)`: an optional sign and at least one decimal digit; anything else is an error. */
  function ParseInt(t: string): (r: Option<int>)
    ensures r.Some? <==>
              (|t| > 0 && AllDigits(t)) ||
              (|t| > 1 && (t[0] == '+' || t[0] == '-') && AllDigits(t[1..]))
    ensures r.Some? && |t| > 0 && t[0] == '-' ==> r.value <= 0
    ensures r.Some? && |t| > 0 && t[0] != '-' ==> r.value >= 0
  {
    if |t| > 1 && (t[0] == '+' || t[0] == '-') && AllDigits(t[1..]) then
      var v: int := DigitsValue(t[1..]);
      Some(if t[0] == '-' then -v else v)
    else if |t| > 0 && AllDigits(t) then Some(DigitsValue(t))
    else None
  }

  /** The decimal digits of a natural number, with no leading zero. */
  function FormatNat(n: nat): (s: string)
    ensures |s| > 0 && AllDigits(s)
    ensures |s| > 1 ==> s[0] != '0'
  {
    if n < 10 then ["0123456789"[n]]
    else FormatNat(n / 10) + ["0123456789"[n % 10]]
  }

  /** The decimal form of an integer, as `str()` writes it. */
  function FormatInt(n: int): (s: string)
    ensures IsWord(s)
  {
    if n < 0 then "-" + FormatNat(-n) else FormatNat(n)
  }

  lemma {:induction false} FormatNatValue(n: nat)
    ensures DigitsValue(FormatNat(n)) == n
  {
    var s := FormatNat(n);
    if n >= 10 {
      FormatNatValue(n / 10);
      assert s[..|s| - 1] == FormatNat(n / 10);
    }
  }

  /** `int(str(n)) == n` for every integer. */
  lemma ParseFormatInt(n: int)
    ensures ParseInt(FormatInt(n)) == Some(n)
  {
    FormatNatValue(if n < 0 then -n else n);
    if n < 0 {
      assert FormatInt(n)[1..] == FormatNat(-n);
    }
  }

  /** Why a points file line is rejected (both are `ValueError`s). */
  datatype ReadError =
    | WrongFieldCount(got: nat)   // `x, y = line.split()` unpacks other than two words
    | NotAnInteger(token: string) // `int(...)` rejects a word

  /** One line of a points file: exactly two words, each an integer. */
  function ParseLine(line: string): (r: Result<Point, ReadError>)
    ensures r.Success? <==>
              |Words(line)| == 2 && ParseInt(Words(line)[0]).Some? && ParseInt(Words(line)[1]).Some?
    ensures r.Success? ==> r.value == Point(ParseInt(Words(line)[0]).value, ParseInt(Words(line)[1]).value)
    ensures r.Failure? && r.error.WrongFieldCount? ==> r.error.got == |Words(line)| != 2
    ensures r.Failure? && r.error.NotAnInteger? ==>
              |Words(line)| == 2 && r.error.token in Words(line) && ParseInt(r.error.token).None?
  {
    var words := Words(line);
    if |words| != 2 then Failure(WrongFieldCount(|words|))
    else
      match ParseInt(words[0])
      case None => Failure(NotAnInteger(words[0]))
      case Some(x) =>
        match ParseInt(words[1])
        case None => Failure(NotAnInteger(words[1]))
        case Some(y) => Success(Point(x, y))
  }

  /** The line a points file holds for `p`. */
  function FormatLine(p: Point): string
  {
    FormatInt(p.x) + " " + FormatInt(p.y) + "\n"
  }

  /** Every line written as `x y` reads back as the point it was written from. */
  lemma ParseFormatLine(p: Point)
    ensures ParseLine(FormatLine(p)) == Success(p)
  {
    WordsOfLine(FormatInt(p.x), FormatInt(p.y));
    ParseFormatInt(p.x);
    ParseFormatInt(p.y);
  }

  /**
   * `read_points` over the lines of the file: one point per line, in file
   * order; the first line that is not two integers raises its error.
   */
  method ReadPoints(lines: seq<string>) returns (r: Result<seq<Point>, ReadError>)
    ensures r.Success? <==> forall i :: 0 <= i < |lines| ==> ParseLine(lines[i]).Success?
    ensures r.Success? ==>
              |r.value| == |lines| && forall i :: 0 <= i < |lines| ==> r.value[i] == ParseLine(lines[i]).value
    ensures r.Failure? ==>
              exists i :: 0 <= i < |lines| && ParseLine(lines[i]) == Failure(r.error) &&
                          forall j :: 0 <= j < i ==> ParseLine(lines[j]).Success?
  {
    var points: seq<Point> := [];
    var i := 0;
    while i < |lines|
      invariant 0 <= i <= |lines|
      invariant |points| == i
      invariant forall j :: 0 <= j < i ==> ParseLine(lines[j]).Success? && points[j] == ParseLine(lines[j]).value
    {
      var parsed := ParseLine(lines[i]);
      if parsed.Failure? {
        return Failure(parsed.error);
      }
      points := points + [parsed.value];
      i := i + 1;
    }
    return Success(points);
  }

  /** A points file written from `pts`, one `x y` line per point, reads back as `pts`. */
  method ReadWrittenPoints(pts: seq<Point>) returns (r: Result<seq<Point>, ReadError>)
    ensures r == Success(pts)
  {
    var lines := seq(|pts|, i requires 0 <= i < |pts| => FormatLine(pts[i]));
    forall i | 0 <= i < |pts|
      ensures ParseLine(lines[i]) == Success(pts[i])
    {
      ParseFormatLine(pts[i]);
    }
    r := ReadPoints(lines);
    assert r.Success?;
    assert r.value == pts;
  }

  /** A parsed JSON document. */
  datatype Json =
    | JNull
    | JBool(b: bool)
    | JNumber(n: real)
    | JString(s: string)
    | JArray(items: seq<Json>)
    | JObject(fields: seq<(string, Json)>)

  /** Why `json.load` on the path gave no document. */
  datatype LoadError = DecodeError | FileNotFound | OtherError

  /**
   * `read_json_data`: the items of a top-level JSON list; any failure to
   * load, and any other top-level value, gives the empty list.
   */
  function ReadJsonData(loaded: Result<Json, LoadError>): (data: seq<Json>)
    ensures data != [] ==> loaded == Success(JArray(data))
    ensures loaded.Success? && loaded.value.JArray? ==> data == loaded.value.items
  {
    match loaded
    case Success(JArray(items)) => items
    case _ => []
  }
}
