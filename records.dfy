/** Records, configuration, errors and the timestamp parser of the typo-pair engine. */
module Records {

  /** A search-pipeline event: field name to field value. */
  type Record = map<string, string>

  /** The two ways the transform can abort: a configured field is absent from a record
      (a KeyError in the host language) or a timestamp is not an integer (a ValueError). */
  datatype Error = MissingField(field: string) | InvalidTimestamp(value: string)

  datatype Result<T> = Ok(value: T) | Err(error: Error)

  datatype Option<T> = None | Some(value: T)

  /** The options of the command, with the numeric ones already converted to integers. */
  datatype Config = Config(
    compField: string,    // field whose values are compared
    timeField: string,    // field holding the event time
    partitionBy: string,  // field whose value groups the records
    windowTime: int,      // largest time gap at which neighbours are compared
    levDist: int,         // Levenshtein threshold, 0 disables the metric
    damDist: int)         // Damerau-Levenshtein threshold, 0 disables the metric

  // ---------------------------------------------------------------------------
  // Integer parsing, as `int(text)` does it for ASCII text
  // ---------------------------------------------------------------------------

  /** The six ASCII whitespace characters `int` strips from both ends. */
  predicate IsSpace(c: char) {
    c == ' ' || c == '\t' || c == '\n' || c == '\r' || c == '\U{B}' || c == '\U{C}'
  }

  predicate IsDigit(c: char) {
    '0' <= c <= '9'
  }

  function TrimStart(s: string): string {
    if |s| > 0 && IsSpace(s[0]) then TrimStart(s[1..]) else s
  }

  function TrimEnd(s: string): string {
    if |s| > 0 && IsSpace(s[|s| - 1]) then TrimEnd(s[..|s| - 1]) else s
  }

  /** Trimming the start removes leading whitespace and nothing else. */
  lemma {:induction false} TrimStartSound(s: string)
    ensures var t := TrimStart(s);
      && |t| <= |s| && t == s[|s| - |t|..]
      && (|t| > 0 ==> !IsSpace(t[0]))
      && (forall i :: 0 <= i < |s| - |t| ==> IsSpace(s[i]))
  {
    if |s| > 0 && IsSpace(s[0]) {
      TrimStartSound(s[1..]);
      var t := TrimStart(s[1..]);
      assert forall i :: 1 <= i < |s| - |t| ==> s[i] == s[1..][i - 1];
    }
  }

  /** Trimming the end removes trailing whitespace and nothing else. */
  lemma {:induction false} TrimEndSound(s: string)
    ensures var t := TrimEnd(s);
      && |t| <= |s| && t == s[..|t|]
      && (|t| > 0 ==> !IsSpace(t[|t| - 1]))
      && (forall i :: |t| <= i < |s| ==> IsSpace(s[i]))
  {
    if |s| > 0 && IsSpace(s[|s| - 1]) {
      TrimEndSound(s[..|s| - 1]);
    }
  }

  /** Decimal digits, possibly with single underscores between digits, and nothing else. */
  predicate WellFormedDigits(d: string) {
    && |d| > 0
    && IsDigit(d[0])
    && IsDigit(d[|d| - 1])
    && (forall i :: 0 <= i < |d| ==> IsDigit(d[i]) || d[i] == '_')
    && (forall i :: 0 <= i < |d| - 1 ==> d[i] == '_' ==> d[i + 1] != '_')
  }

  /** The number the digits of `d` spell, underscores ignored. */
  function DigitsValue(d: string): nat {
    if |d| == 0 then 0
    else if IsDigit(d[|d| - 1]) then 10 * DigitsValue(d[..|d| - 1]) + (d[|d| - 1] as int - '0' as int)
    else DigitsValue(d[..|d| - 1])
  }

  /** `int(text)`: surrounding whitespace, an optional sign, then well-formed digits. */
  function ParseInt(s: string): Option<int> {
    var t := TrimEnd(TrimStart(s));
    if |t| > 0 && (t[0] == '+' || t[0] == '-') then
      if WellFormedDigits(t[1..]) then
        var v: int := DigitsValue(t[1..]);
        Some(if t[0] == '-' then -v else v)
      else None
    else if WellFormedDigits(t) then Some(DigitsValue(t))
    else None
  }

  /** The canonical decimal rendering of a natural number. */
  function NatDigits(n: nat): (d: string)
    ensures |d| > 0 && forall i :: 0 <= i < |d| ==> IsDigit(d[i])
  {
    var c := ['0' + ((n % 10) as char)];
    if n < 10 then c else NatDigits(n / 10) + c
  }

  /** The canonical decimal rendering of an integer. */
  function Decimal(n: int): string {
    if n < 0 then "-" + NatDigits(-n) else NatDigits(n)
  }

  lemma {:induction false} DigitsValueOfNatDigits(n: nat)
    ensures DigitsValue(NatDigits(n)) == n
  {
    var d := NatDigits(n);
    assert IsDigit(d[|d| - 1]);
    if n >= 10 {
      assert d[..|d| - 1] == NatDigits(n / 10);
      DigitsValueOfNatDigits(n / 10);
    } else {
      assert d[..|d| - 1] == [];
    }
  }

  /** Text that neither starts nor ends with whitespace is left alone by the trimming. */
  lemma TrimUnpadded(s: string)
    requires |s| > 0 && !IsSpace(s[0]) && !IsSpace(s[|s| - 1])
    ensures TrimEnd(TrimStart(s)) == s
  {
    assert TrimStart(s) == s;
  }

  lemma NatDigitsWellFormed(n: nat)
    ensures WellFormedDigits(NatDigits(n))
  {
  }

  /** Parsing the decimal rendering of any integer gives that integer back. */
  lemma ParseDecimal(n: int)
    ensures ParseInt(Decimal(n)) == Some(n)
  {
    var m: nat := if n < 0 then -n else n;
    var d := NatDigits(m);
    DigitsValueOfNatDigits(m);
    NatDigitsWellFormed(m);
    var s := Decimal(n);
    assert s[|s| - 1] == d[|d| - 1];
    TrimUnpadded(s);
    if n < 0 {
      assert s[0] == '-' && s[1..] == d;
    } else {
      assert s == d && s[0] != '+' && s[0] != '-';
    }
  }

  /** Every character of `s` is whitespace. */
  predicate AllSpace(s: string) {
    forall i :: 0 <= i < |s| ==> IsSpace(s[i])
  }

  /** Trimming removes exactly the whitespace around text that neither starts nor ends
      with whitespace itself. */
  lemma TrimPadding(p: string, s: string, q: string)
    requires AllSpace(p) && AllSpace(q)
    requires |s| > 0 && !IsSpace(s[0]) && !IsSpace(s[|s| - 1])
    ensures TrimEnd(TrimStart(p + s + q)) == s
  {
    var x := p + s + q;
    TrimStartSound(x);
    var t := TrimStart(x);
    assert x[|p|] == s[0];
    assert t == s + q;
    TrimEndSound(t);
    var u := TrimEnd(t);
    assert t[|s| - 1] == s[|s| - 1];
    assert |u| >= |s|;
    assert u == t[..|u|];
  }

  /** A time written in decimal, with any whitespace around it, parses to its value. */
  lemma ParsePaddedDecimal(p: string, n: int, q: string)
    requires AllSpace(p) && AllSpace(q)
    ensures ParseInt(p + Decimal(n) + q) == Some(n)
  {
    ParseDecimal(n);
    var m: nat := if n < 0 then -n else n;
    var d, s := NatDigits(m), Decimal(n);
    assert s[|s| - 1] == d[|d| - 1];
    assert s[0] == '-' || s[0] == d[0];
    TrimUnpadded(s);
    TrimPadding(p, s, q);
  }

  /** A field's value read as a timestamp: absent field and unparsable text are errors. */
  function TimeOf(r: Record, tf: string): Result<int> {
    if tf !in r then Err(MissingField(tf))
    else match ParseInt(r[tf])
      case None => Err(InvalidTimestamp(r[tf]))
      case Some(t) => Ok(t)
  }

  predicate HasTime(r: Record, tf: string) {
    TimeOf(r, tf).Ok?
  }

  function Time(r: Record, tf: string): int
    requires HasTime(r, tf)
  {
    TimeOf(r, tf).value
  }

  /** Every record of `s` carries a parsable timestamp. */
  predicate AllTimed(s: seq<Record>, tf: string) {
    forall i :: 0 <= i < |s| ==> HasTime(s[i], tf)
  }
}
