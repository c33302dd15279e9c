/**
 * `datetime.strftime` and `datetime.strptime` for format strings built from
 * literal characters and the directives %Y %m %d %H %M.
 *
 * strftime writes every directive zero-padded (four digits for %Y, two for the
 * others). strptime compiles the format into a regular expression and matches
 * it case-insensitively at the start of the text:
 *   %Y  \d\d\d\d
 *   %m  1[0-2]|0[1-9]|[1-9]
 *   %d  3[01]|[12]\d|0[1-9]|[1-9]| [1-9]
 *   %H  2[0-3]|[0-1]\d|\d
 *   %M  [0-5]\d|\d
 * a run of whitespace in the format becomes `\s+`, and any other character
 * matches itself. Alternatives are tried left to right with backtracking; the
 * first match found must cover the whole text ("unconverted data remains"
 * otherwise), and the fields must then form a real date, fields the format
 * does not mention taking the defaults 1900-01-01 00:00.
 */
module TimeFormat {
  import opened Wrappers
  import opened Text
  import opened Calendar

  datatype Directive = Year | Month | Day | Hour | Minute

  /** One element of a format string: a literal character or a `%` directive. */
  datatype Piece = Lit(c: char) | Field(d: Directive)

  type Template = seq<Piece>

  function Literal(s: string): (t: Template)
    ensures |t| == |s| && forall i :: 0 <= i < |s| ==> t[i] == Lit(s[i])
  {
    seq(|s|, i requires 0 <= i < |s| => Lit(s[i]))
  }

  predicate HasDirective(t: Template, d: Directive) {
    exists i :: 0 <= i < |t| && t[i] == Field(d)
  }

  /**
   * No directive occurs twice: strptime turns each directive into a named
   * regex group, and a repeated group name is a regex compilation error.
   */
  predicate WellFormed(t: Template) {
    forall i, j :: 0 <= i < j < |t| && t[i].Field? ==> t[j] != t[i]
  }

  /** A format strptime accepts. */
  type ValidTemplate = t: Template | WellFormed(t) witness []

  /** `%Y-%m-%d_%H-%M_imageroller`, the name every image of ours carries. */
  const ImageNameTemplate: ValidTemplate :=
    [Field(Year), Lit('-'), Field(Month), Lit('-'), Field(Day), Lit('_'),
     Field(Hour), Lit('-'), Field(Minute)] + Literal("_imageroller")

  /** `foobar-%Y-%m-%d`, a date-only format with a literal prefix. */
  const DateOnlyTemplate: ValidTemplate :=
    Literal("foobar-") + [Field(Year), Lit('-'), Field(Month), Lit('-'), Field(Day)]

  // ---------------------------------------------------------------- strftime

  function FieldValue(d: Directive, dt: DateTime): int {
    match d
    case Year => dt.year
    case Month => dt.month
    case Day => dt.day
    case Hour => dt.hour
    case Minute => dt.minute
  }

  function FieldText(d: Directive, dt: DateTime): (s: string)
    requires Valid(dt)
    ensures |s| > 0 && IsDigit(s[0])
  {
    match d
    case Year => Pad4(dt.year)
    case Month => Pad2(dt.month)
    case Day => Pad2(dt.day)
    case Hour => Pad2(dt.hour)
    case Minute => Pad2(dt.minute)
  }

  function PieceText(p: Piece, dt: DateTime): string
    requires Valid(dt)
  {
    match p
    case Lit(c) => [c]
    case Field(d) => FieldText(d, dt)
  }

  /** `dt.strftime(t)`. */
  function Format(t: Template, dt: DateTime): string
    requires Valid(dt)
    decreases |t|
  {
    if |t| == 0 then "" else PieceText(t[0], dt) + Format(t[1..], dt)
  }

  // ---------------------------------------------------------------- strptime

  /** One element of the compiled pattern. */
  datatype Token = Exact(c: char) | Spaces | Group(d: Directive)

  /** Drops the whitespace literals at the front of a format. */
  function SkipSpaces(t: Template): (r: Template)
    ensures |r| <= |t|
    decreases |t|
  {
    if |t| > 0 && t[0].Lit? && IsSpace(t[0].c) then SkipSpaces(t[1..]) else t
  }

  /** The pattern strptime builds from a format; a whitespace run becomes one `\s+`. */
  function Compile(t: Template): seq<Token>
    decreases |t|
  {
    if |t| == 0 then []
    else match t[0]
      case Field(d) => [Group(d)] + Compile(t[1..])
      case Lit(c) =>
        if IsSpace(c) then [Spaces] + Compile(SkipSpaces(t[1..]))
        else [Exact(c)] + Compile(t[1..])
  }

  /** A way one token can match at the front of the text: its length and the number it reads. */
  datatype Cand = Cand(len: nat, value: int)

  /** The values a directive's regex can produce. */
  predicate InRange(d: Directive, v: int) {
    match d
    case Year => 0 <= v <= 9999
    case Month => 1 <= v <= 12
    case Day => 1 <= v <= 31
    case Hour => 0 <= v <= 23
    case Minute => 0 <= v <= 59
  }

  /** The matches of a directive's alternatives at the front of `s`, in the order the regex tries them. */
  function GroupCandidates(d: Directive, s: string): (r: seq<Cand>)
    ensures forall i :: 0 <= i < |r| ==> 1 <= r[i].len <= |s| && InRange(d, r[i].value)
  {
    match d
    case Year =>
      if |s| >= 4 && IsDigit(s[0]) && IsDigit(s[1]) && IsDigit(s[2]) && IsDigit(s[3])
      then [Cand(4, 1000 * DigitValue(s[0]) + 100 * DigitValue(s[1]) + 10 * DigitValue(s[2]) + DigitValue(s[3]))]
      else []
    case Month =>
      (if |s| >= 2 && s[0] == '1' && '0' <= s[1] <= '2' then [Cand(2, 10 + DigitValue(s[1]))] else [])
      + (if |s| >= 2 && s[0] == '0' && '1' <= s[1] <= '9' then [Cand(2, DigitValue(s[1]))] else [])
      + (if |s| >= 1 && '1' <= s[0] <= '9' then [Cand(1, DigitValue(s[0]))] else [])
    case Day =>
      (if |s| >= 2 && s[0] == '3' && '0' <= s[1] <= '1' then [Cand(2, 30 + DigitValue(s[1]))] else [])
      + (if |s| >= 2 && '1' <= s[0] <= '2' && IsDigit(s[1]) then [Cand(2, 10 * DigitValue(s[0]) + DigitValue(s[1]))] else [])
      + (if |s| >= 2 && s[0] == '0' && '1' <= s[1] <= '9' then [Cand(2, DigitValue(s[1]))] else [])
      + (if |s| >= 1 && '1' <= s[0] <= '9' then [Cand(1, DigitValue(s[0]))] else [])
      + (if |s| >= 2 && s[0] == ' ' && '1' <= s[1] <= '9' then [Cand(2, DigitValue(s[1]))] else [])
    case Hour =>
      (if |s| >= 2 && s[0] == '2' && '0' <= s[1] <= '3' then [Cand(2, 20 + DigitValue(s[1]))] else [])
      + (if |s| >= 2 && '0' <= s[0] <= '1' && IsDigit(s[1]) then [Cand(2, 10 * DigitValue(s[0]) + DigitValue(s[1]))] else [])
      + (if |s| >= 1 && IsDigit(s[0]) then [Cand(1, DigitValue(s[0]))] else [])
    case Minute =>
      (if |s| >= 2 && '0' <= s[0] <= '5' && IsDigit(s[1]) then [Cand(2, 10 * DigitValue(s[0]) + DigitValue(s[1]))] else [])
      + (if |s| >= 1 && IsDigit(s[0]) then [Cand(1, DigitValue(s[0]))] else [])
  }

  /** The length of the whitespace run at the front of `s`. */
  function SpaceRun(s: string): (n: nat)
    ensures n <= |s|
    ensures forall i :: 0 <= i < n ==> IsSpace(s[i])
    ensures n < |s| ==> !IsSpace(s[n])
    decreases |s|
  {
    if |s| > 0 && IsSpace(s[0]) then 1 + SpaceRun(s[1..]) else 0
  }

  /** The lengths a greedy `\s+` tries, longest first. */
  function Backoff(n: nat): (r: seq<Cand>)
    ensures |r| == n && forall i :: 0 <= i < n ==> r[i] == Cand(n - i, 0)
  {
    seq(n, i requires 0 <= i < n => Cand(n - i, 0))
  }

  function Candidates(tok: Token, s: string): (r: seq<Cand>)
    ensures forall i :: 0 <= i < |r| ==> 1 <= r[i].len <= |s|
  {
    match tok
    case Exact(c) => if |s| > 0 && LowerChar(s[0]) == LowerChar(c) then [Cand(1, 0)] else []
    case Spaces => Backoff(SpaceRun(s))
    case Group(d) => GroupCandidates(d, s)
  }

  /** The numbers read so far, by directive. */
  datatype Fields = Fields(year: Option<int>, month: Option<int>, day: Option<int>,
                           hour: Option<int>, minute: Option<int>)
  {
    function Get(d: Directive): Option<int> {
      match d
      case Year => year
      case Month => month
      case Day => day
      case Hour => hour
      case Minute => minute
    }

    function With(d: Directive, v: int): (f: Fields)
      ensures f.Get(d) == Some(v)
      ensures forall e :: e != d ==> f.Get(e) == Get(e)
    {
      match d
      case Year => this.(year := Some(v))
      case Month => this.(month := Some(v))
      case Day => this.(day := Some(v))
      case Hour => this.(hour := Some(v))
      case Minute => this.(minute := Some(v))
    }
  }

  const NoFields := Fields(None, None, None, None, None)

  /** A successful match: the fields it read and how much of the text it covered. */
  datatype Capture = Capture(fields: Fields, end: nat)

  function Record(tok: Token, v: int, f: Fields): Fields {
    if tok.Group? then f.With(tok.d, v) else f
  }

  /** The first match of pattern `p` at the front of `s`, in backtracking order. */
  function Match(p: seq<Token>, s: string): Option<Capture>
    decreases |p|, 1, 0
  {
    if |p| == 0 then Some(Capture(NoFields, 0)) else TryEach(p, s, Candidates(p[0], s))
  }

  /** Tries the ways `p[0]` can match, in order, until the rest of the pattern matches too. */
  function TryEach(p: seq<Token>, s: string, cs: seq<Cand>): Option<Capture>
    requires |p| > 0
    decreases |p|, 0, |cs|
  {
    if |cs| == 0 then None
    // never taken: every candidate fits in the text (see Candidates)
    else if cs[0].len > |s| then None
    else match Match(p[1..], s[cs[0].len..])
      case Some(rest) => Some(Capture(Record(p[0], cs[0].value, rest.fields), cs[0].len + rest.end))
      case None => TryEach(p, s, cs[1..])
  }

  /** The `datetime` strptime builds from the fields, or None when they are not a real date. */
  function Build(f: Fields): Option<DateTime> {
    var dt := DateTime(f.year.GetOr(1900), f.month.GetOr(1), f.day.GetOr(1),
                       f.hour.GetOr(0), f.minute.GetOr(0), 0, 0);
    if Valid(dt) then Some(dt) else None
  }

  /** `datetime.strptime(s, t)`; None stands for the ValueError it raises. */
  function Parse(t: Template, s: string): (r: Option<DateTime>)
    requires WellFormed(t)
    ensures r.Some? ==> Valid(r.value) && r.value.second == 0 && r.value.microsecond == 0
  {
    match Match(Compile(t), s)
    case None => None
    case Some(m) => if m.end != |s| then None else Build(m.fields)
  }

  // ---------------------------------------------------------------- round trip

  /** The fields a format reads back from `dt.strftime(t)`. */
  function Captured(t: Template, dt: DateTime): Fields
    decreases |t|
  {
    if |t| == 0 then NoFields
    else match t[0]
      case Field(d) => Captured(t[1..], dt).With(d, FieldValue(d, dt))
      case Lit(_) => Captured(t[1..], dt)
  }

  /** `dt` cut down to what format `t` records; absent fields take strptime's defaults. */
  function Truncate(t: Template, dt: DateTime): DateTime {
    DateTime(if HasDirective(t, Year) then dt.year else 1900,
             if HasDirective(t, Month) then dt.month else 1,
             if HasDirective(t, Day) then dt.day else 1,
             if HasDirective(t, Hour) then dt.hour else 0,
             if HasDirective(t, Minute) then dt.minute else 0,
             0, 0)
  }

  /**
   * A format with a month and a day but no year cannot read back 29 February:
   * strptime checks the day against the default year 1900.
   */
  predicate ReadsBackEveryDate(t: Template) {
    HasDirective(t, Year) || !HasDirective(t, Month) || !HasDirective(t, Day)
  }

  /** `R` is a run of whitespace followed by `F`, which does not start with whitespace. */
  predicate SpacePadded(R: string, F: string) {
    && |F| <= |R|
    && R[|R| - |F|..] == F
    && (forall i :: 0 <= i < |R| - |F| ==> IsSpace(R[i]))
    && (|F| > 0 ==> !IsSpace(F[0]))
  }

  lemma {:induction false} SkipSpacesFormat(t: Template, dt: DateTime)
    requires Valid(dt)
    ensures Captured(SkipSpaces(t), dt) == Captured(t, dt)
    ensures SpacePadded(Format(t, dt), Format(SkipSpaces(t), dt))
    decreases |t|
  {
    if |t| > 0 && t[0].Lit? && IsSpace(t[0].c) {
      SkipSpacesFormat(t[1..], dt);
      assert Format(t, dt) == [t[0].c] + Format(t[1..], dt);
    } else if |t| > 0 {
      assert Format(t, dt) == PieceText(t[0], dt) + Format(t[1..], dt);
    }
  }

  /** The first alternative a directive's regex tries on its own zero-padded text is the right one. */
  lemma FirstGroupCandidate(d: Directive, dt: DateTime, rest: string)
    requires Valid(dt)
    ensures var r := GroupCandidates(d, FieldText(d, dt) + rest);
            |r| > 0 && r[0] == Cand(|FieldText(d, dt)|, FieldValue(d, dt))
  {
    var s := FieldText(d, dt) + rest;
    var v := FieldValue(d, dt);
    assert s[0] == FieldText(d, dt)[0] && s[1] == FieldText(d, dt)[1];
    if d != Year {
      assert 10 * DigitValue(s[0]) + DigitValue(s[1]) == v;
    }
    match d
    case Year =>
      assert s[2] == FieldText(d, dt)[2] && s[3] == FieldText(d, dt)[3];
    case Month =>
      if v >= 10 { assert DigitValue(s[0]) == 1; assert s[0] == '1'; }
      else { assert DigitValue(s[0]) == 0; assert s[0] == '0'; }
    case Day =>
      if v >= 30 { assert DigitValue(s[0]) == 3; assert s[0] == '3'; }
      else if v >= 10 { assert 1 <= DigitValue(s[0]) <= 2; assert s[0] != '3'; }
      else { assert DigitValue(s[0]) == 0; assert s[0] == '0'; }
    case Hour =>
      if v >= 20 { assert DigitValue(s[0]) == 2; assert s[0] == '2'; }
      else { assert DigitValue(s[0]) <= 1; assert s[0] != '2'; }
    case Minute =>
  }

  lemma SpaceRunExact(s: string, m: nat)
    requires m <= |s|
    requires forall i :: 0 <= i < m ==> IsSpace(s[i])
    requires m < |s| ==> !IsSpace(s[m])
    ensures SpaceRun(s) == m
  {
  }

  /** When the first way `p[0]` can match lets the rest match, that is the match. */
  lemma FirstWayMatches(p: seq<Token>, s: string, cs: seq<Cand>, rest: Capture)
    requires |p| > 0 && cs == Candidates(p[0], s) && |cs| > 0
    requires Match(p[1..], s[cs[0].len..]) == Some(rest)
    ensures Match(p, s) == Some(Capture(Record(p[0], cs[0].value, rest.fields), cs[0].len + rest.end))
  {
    MatchUnfold(p, s);
    TryFirst(p, s, cs, rest);
  }

  lemma MatchUnfold(p: seq<Token>, s: string)
    requires |p| > 0
    ensures Match(p, s) == TryEach(p, s, Candidates(p[0], s))
  {
  }

  lemma TryFirst(p: seq<Token>, s: string, cs: seq<Cand>, rest: Capture)
    requires |p| > 0 && |cs| > 0 && cs[0].len <= |s|
    requires Match(p[1..], s[cs[0].len..]) == Some(rest)
    ensures TryEach(p, s, cs) == Some(Capture(Record(p[0], cs[0].value, rest.fields), cs[0].len + rest.end))
  {
  }

  /** The shape of the claim MatchFormat makes about one format. */
  predicate MatchesFormatted(t: Template, dt: DateTime)
    requires Valid(dt)
  {
    Match(Compile(t), Format(t, dt)) == Some(Capture(Captured(t, dt), |Format(t, dt)|))
  }

  lemma MatchFormatField(t: Template, dt: DateTime)
    requires Valid(dt) && |t| > 0 && t[0].Field?
    requires MatchesFormatted(t[1..], dt)
    ensures MatchesFormatted(t, dt)
  {
    var d := t[0].d;
    var s := Format(t, dt);
    var p := Compile(t);
    var tail := Format(t[1..], dt);
    assert s == FieldText(d, dt) + tail;
    assert p[0] == Group(d) && p[1..] == Compile(t[1..]);
    FirstGroupCandidate(d, dt, tail);
    assert s[|FieldText(d, dt)|..] == tail;
    FirstWayMatches(p, s, Candidates(p[0], s), Capture(Captured(t[1..], dt), |tail|));
  }

  lemma MatchFormatExact(t: Template, dt: DateTime)
    requires Valid(dt) && |t| > 0 && t[0].Lit? && !IsSpace(t[0].c)
    requires MatchesFormatted(t[1..], dt)
    ensures MatchesFormatted(t, dt)
  {
    var s := Format(t, dt);
    var p := Compile(t);
    var tail := Format(t[1..], dt);
    assert s == [t[0].c] + tail;
    assert p[0] == Exact(t[0].c) && p[1..] == Compile(t[1..]);
    assert s[1..] == tail;
    FirstWayMatches(p, s, Candidates(p[0], s), Capture(Captured(t[1..], dt), |tail|));
  }

  lemma SpacePrefix(c: char, R: string, F: string)
    requires IsSpace(c) && SpacePadded(R, F)
    ensures SpaceRun([c] + R) == 1 + |R| - |F|
    ensures ([c] + R)[1 + |R| - |F|..] == F
  {
    var s := [c] + R;
    var n := |R| - |F|;
    forall i | 1 <= i < 1 + n ensures IsSpace(s[i]) {
      assert s[i] == R[i - 1];
    }
    assert s[1..] == R;
    SpaceRunExact(s, 1 + n);
  }

  lemma MatchFormatSpaces(t: Template, dt: DateTime)
    requires Valid(dt) && |t| > 0 && t[0].Lit? && IsSpace(t[0].c)
    requires MatchesFormatted(SkipSpaces(t[1..]), dt)
    ensures MatchesFormatted(t, dt)
  {
    var u := SkipSpaces(t[1..]);
    UnfoldSpace(t, dt);
    SkipSpacesFormat(t[1..], dt);
    SpacesStep(Compile(t), Format(t, dt), t[0].c, Format(t[1..], dt), Format(u, dt), Captured(u, dt), Compile(u));
  }

  /** A format starting with a whitespace literal, one piece at a time. */
  lemma UnfoldSpace(t: Template, dt: DateTime)
    requires Valid(dt) && |t| > 0 && t[0].Lit? && IsSpace(t[0].c)
    ensures Compile(t) == [Spaces] + Compile(SkipSpaces(t[1..]))
    ensures Format(t, dt) == [t[0].c] + Format(t[1..], dt)
    ensures Captured(t, dt) == Captured(t[1..], dt)
  {
  }

  /** `\s+` takes the whole whitespace run, and the rest of the pattern matches what follows. */
  lemma SpacesStep(p: seq<Token>, S: string, c: char, R: string, F: string, C: Fields, q: seq<Token>)
    requires IsSpace(c) && S == [c] + R
    requires p == [Spaces] + q
    requires Match(q, F) == Some(Capture(C, |F|))
    requires SpacePadded(R, F)
    ensures Match(p, S) == Some(Capture(C, |S|))
  {
    SpacePrefix(c, R, F);
    var n := 1 + |R| - |F|;
    var cs := Candidates(Spaces, S);
    assert cs == Backoff(n);
    assert cs[0] == Cand(n, 0);
    assert p[0] == Spaces && p[1..] == q;
    assert S[n..] == F;
    FirstWayMatches(p, S, cs, Capture(C, |F|));
    assert Record(Spaces, 0, C) == C;
  }

  /** strptime's pattern matches strftime's output in full, reading back the formatted fields. */
  lemma {:induction false} MatchFormat(t: Template, dt: DateTime)
    requires Valid(dt)
    ensures MatchesFormatted(t, dt)
    decreases |t|
  {
    if |t| == 0 {
      return;
    }
    match t[0]
    case Field(d) =>
      MatchFormat(t[1..], dt);
      MatchFormatField(t, dt);
    case Lit(c) =>
      if IsSpace(c) {
        MatchFormat(SkipSpaces(t[1..]), dt);
        MatchFormatSpaces(t, dt);
      } else {
        MatchFormat(t[1..], dt);
        MatchFormatExact(t, dt);
      }
  }

  lemma {:induction false} CapturedGet(t: Template, dt: DateTime, d: Directive)
    ensures Captured(t, dt).Get(d) == if HasDirective(t, d) then Some(FieldValue(d, dt)) else None
    decreases |t|
  {
    if |t| == 0 {
      return;
    }
    CapturedGet(t[1..], dt, d);
    if HasDirective(t[1..], d) {
      var i :| 0 <= i < |t[1..]| && t[1..][i] == Field(d);
      assert t[i + 1] == Field(d);
    }
    if HasDirective(t, d) && t[0] != Field(d) {
      var i :| 0 <= i < |t| && t[i] == Field(d);
      assert t[1..][i - 1] == Field(d);
    }
    if t[0] == Field(d) {
      assert HasDirective(t, d);
    }
  }

  /**
   * Formatting an instant and parsing the text back with the same format gives
   * the instant's year, month, day, hour and minute (those the format records),
   * with seconds and microseconds zero.
   */
  lemma RoundTrip(t: Template, dt: DateTime)
    requires WellFormed(t) && ReadsBackEveryDate(t) && Valid(dt)
    ensures Parse(t, Format(t, dt)) == Some(Truncate(t, dt))
  {
    MatchFormat(t, dt);
    var f := Captured(t, dt);
    CapturedGet(t, dt, Year);
    CapturedGet(t, dt, Month);
    CapturedGet(t, dt, Day);
    CapturedGet(t, dt, Hour);
    CapturedGet(t, dt, Minute);
    assert Build(f) == Some(Truncate(t, dt));
  }

  lemma ImageNameTemplateFields()
    ensures forall d :: HasDirective(ImageNameTemplate, d)
  {
    var t := ImageNameTemplate;
    assert t[0] == Field(Year) && t[2] == Field(Month) && t[4] == Field(Day)
        && t[6] == Field(Hour) && t[8] == Field(Minute);
    forall d ensures HasDirective(t, d) {
      match d
      case Year => assert t[0] == Field(d);
      case Month => assert t[2] == Field(d);
      case Day => assert t[4] == Field(d);
      case Hour => assert t[6] == Field(d);
      case Minute => assert t[8] == Field(d);
    }
  }

  /** `strptime(strftime(now, IMAGE_NAME_TEMPLATE), IMAGE_NAME_TEMPLATE)` is `now` to the minute. */
  lemma ImageNameRoundTrip(dt: DateTime)
    requires Valid(dt)
    ensures Parse(ImageNameTemplate, Format(ImageNameTemplate, dt))
            == Some(DateTime(dt.year, dt.month, dt.day, dt.hour, dt.minute, 0, 0))
  {
    ImageNameTemplateFields();
    RoundTrip(ImageNameTemplate, dt);
  }

  /** The date-only format reads back year, month and day, and zeros the time of day. */
  lemma DateOnlyRoundTrip(dt: DateTime)
    requires Valid(dt)
    ensures Parse(DateOnlyTemplate, Format(DateOnlyTemplate, dt))
            == Some(DateTime(dt.year, dt.month, dt.day, 0, 0, 0, 0))
  {
    var t := DateOnlyTemplate;
    assert forall i :: 0 <= i < 7 ==> t[i].Lit?;
    assert t[7] == Field(Year) && t[9] == Field(Month) && t[11] == Field(Day);
    assert !HasDirective(t, Hour) && !HasDirective(t, Minute);
    RoundTrip(t, dt);
  }
}
