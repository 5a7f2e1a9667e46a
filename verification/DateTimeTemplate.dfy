/**
 The date and time template: blocks in braces found by a regular expression, each a sequence of fields and
 separators, or a name looked up in a context.
 */
module DateTimeTemplate {
  import opened Common

  /** A point in time as its printed parts. */
  datatype Moment = Moment(year: nat, month: nat, day: nat, hour: nat, minute: nat, second: nat, micro: nat) {
    predicate Valid() {
      1 <= year <= 9999 && 1 <= month <= 12 && 1 <= day <= 31 && hour < 24 && minute < 60 && second < 60
        && micro < 1_000_000
    }
  }

  datatype Reason = IncompleteBraces | EmptyExpression | TooWide(field: char, width: nat, max: nat)
                  | Unsupported(c: char) | NoField | ContextNotText

  datatype Failure = Failure(expression: Option<string>, reason: Reason)

  /** Names with their text, or nothing where the value given is not a string. */
  type Context = Option<map<string, Option<string>>>

  // ----- Fields ---------------------------------------------------------------------------------------------

  function MaxWidth(c: char): nat {
    if c == 'Y' then 4 else if c == 'S' then 3 else if c in "MDhms" then 2 else 0
  }

  predicate IsField(c: char) {
    MaxWidth(c) > 0
  }

  predicate IsSeparator(c: char) {
    c in "-_. :/T"
  }

  function Digit(d: nat): char
    requires d < 10
  {
    "0123456789"[d]
  }

  /** Zero-padded decimal. */
  function Padded(n: nat, width: nat): (s: string)
    ensures |s| == width
  {
    if width == 0 then "" else Padded(n / 10, width - 1) + [Digit(n % 10)]
  }

  function FieldValue(t: Moment, c: char): (s: string)
    requires IsField(c)
    ensures |s| == MaxWidth(c)
  {
    if c == 'Y' then Padded(t.year, 4)
    else if c == 'M' then Padded(t.month, 2)
    else if c == 'D' then Padded(t.day, 2)
    else if c == 'h' then Padded(t.hour, 2)
    else if c == 'm' then Padded(t.minute, 2)
    else if c == 's' then Padded(t.second, 2)
    else Padded(t.micro / 1000, 3)
  }

  /** Where the run of equal characters through `i` ends. */
  function RunEnd(e: string, i: nat): (end: nat)
    requires i < |e|
    ensures i < end <= |e|
    decreases |e| - i
  {
    if i + 1 < |e| && e[i + 1] == e[i] then RunEnd(e, i + 1) else i + 1
  }

  lemma {:induction false} RunIs(e: string, i: nat)
    requires i < |e|
    ensures forall j | i <= j < RunEnd(e, i) :: e[j] == e[i] && RunEnd(e, j) == RunEnd(e, i)
    ensures RunEnd(e, i) < |e| ==> e[RunEnd(e, i)] != e[i]
    decreases |e| - i
  {
    if i + 1 < |e| && e[i + 1] == e[i] {
      RunIs(e, i + 1);
    }
  }

  // ----- What an expression means -----------------------------------------------------------------------------

  /** A position that is in no run wider than its field allows and holds no foreign character. */
  predicate FineAt(e: string, i: nat)
    requires i < |e|
  {
    if IsField(e[i]) then RunEnd(e, i) - i <= MaxWidth(e[i]) else IsSeparator(e[i])
  }

  /** Some field, no run wider than its field allows, and only separators between. */
  predicate ValidExpression(e: string) {
    (forall i | 0 <= i < |e| :: FineAt(e, i)) && exists i | 0 <= i < |e| :: IsField(e[i])
  }

  /** A field position shows the digit as far from the right of the field's value as it is from the right of
      its run; a separator shows itself. */
  function CharAt(t: Moment, e: string, i: nat): char
    requires i < |e| && FineAt(e, i)
  {
    if IsField(e[i]) then FieldValue(t, e[i])[MaxWidth(e[i]) - (RunEnd(e, i) - i)] else e[i]
  }

  function Shown(t: Moment, e: string): (s: string)
    requires forall i | 0 <= i < |e| :: FineAt(e, i)
    ensures |s| == |e| && forall i | 0 <= i < |e| :: s[i] == CharAt(t, e, i)
  {
    seq(|e|, i requires 0 <= i < |e| => CharAt(t, e, i))
  }

  /** The first thing wrong, met from the left at the start of its run. */
  predicate FirstFault(e: string, i: nat, r: Reason)
    requires i < |e|
  {
    && (forall j | 0 <= j < i :: FineAt(e, j))
    && (i == 0 || e[i - 1] != e[i] || !IsField(e[i]))
    && (if IsField(e[i]) then RunEnd(e, i) - i > MaxWidth(e[i]) && r == TooWide(e[i], RunEnd(e, i) - i, MaxWidth(e[i]))
        else !IsSeparator(e[i]) && r == Unsupported(e[i]))
  }

  function RenderedExpression(t: Moment, e: string): (r: Result<string, Reason>)
    ensures r.Ok? <==> ValidExpression(e)
    ensures r.Ok? ==> |r.value| == |e| && forall i | 0 <= i < |e| :: FineAt(e, i) && r.value[i] == CharAt(t, e, i)
    ensures r.Err? ==> if e == "" then r.error == EmptyExpression
                       else if forall i | 0 <= i < |e| :: FineAt(e, i) then r.error == NoField
                       else exists i | 0 <= i < |e| :: FirstFault(e, i, r.error)
  {
    if e == "" then Err(EmptyExpression)
    else
      FaultIs(e, 0);
      match FaultFrom(e, 0)
      case Some(reason) => Err(reason)
      case None => if exists i | 0 <= i < |e| :: IsField(e[i]) then Ok(Shown(t, e)) else Err(NoField)
  }

  function FaultFrom(e: string, i: nat): Option<Reason>
    requires i <= |e|
    decreases |e| - i
  {
    if i == |e| then None
    else if IsField(e[i]) then
      var width := RunEnd(e, i) - i;
      if width > MaxWidth(e[i]) then Some(TooWide(e[i], width, MaxWidth(e[i]))) else FaultFrom(e, RunEnd(e, i))
    else if !IsSeparator(e[i]) then Some(Unsupported(e[i]))
    else FaultFrom(e, i + 1)
  }

  lemma {:induction false} FaultIs(e: string, i: nat)
    requires i <= |e| && (forall j | 0 <= j < i :: FineAt(e, j)) && (0 < i < |e| ==> e[i - 1] != e[i] || !IsField(e[i]))
    ensures FaultFrom(e, i).None? ==> forall j | 0 <= j < |e| :: FineAt(e, j)
    ensures FaultFrom(e, i).Some? ==> exists j | 0 <= j < |e| :: FirstFault(e, j, FaultFrom(e, i).value)
    ensures FaultFrom(e, i).Some? ==> exists j | 0 <= j < |e| :: !FineAt(e, j)
    decreases |e| - i
  {
    if i < |e| {
      RunIs(e, i);
      if IsField(e[i]) {
        var end := RunEnd(e, i);
        if end - i > MaxWidth(e[i]) {
          assert FirstFault(e, i, FaultFrom(e, i).value);
          assert !FineAt(e, i);
        } else {
          forall j | 0 <= j < end ensures FineAt(e, j) {
          }
          assert e[end - 1] == e[i];
          FaultIs(e, end);
        }
      } else if !IsSeparator(e[i]) {
        assert FirstFault(e, i, FaultFrom(e, i).value);
        assert !FineAt(e, i);
      } else {
        FaultIs(e, i + 1);
      }
    }
  }

  /** The part before `offset` is rendered, and `offset` is where a run or a separator begins. */
  ghost predicate RenderedSoFar(t: Moment, e: string, offset: nat, rendered: string) {
    && offset <= |e| && |rendered| == offset
    && (forall j | 0 <= j < offset :: FineAt(e, j) && rendered[j] == CharAt(t, e, j))
  }

  predicate HasField(e: string, n: nat)
    requires n <= |e|
  {
    exists j | 0 <= j < n :: IsField(e[j])
  }

  /** `_render_date_time_expression`: run by run. */
  method RenderExpression(t: Moment, e: string) returns (r: Result<string, Reason>)
    ensures r == RenderedExpression(t, e)
  {
    if e == "" {
      return Err(EmptyExpression);
    }
    hide IsSeparator, MaxWidth, FieldValue, RunEnd, RenderedSoFar, HasField;
    NothingRendered(t, e);
    var rendered := "";
    var fields := 0;
    var offset := 0;
    while offset < |e|
      invariant 0 <= offset <= |e| && RenderedSoFar(t, e, offset, rendered)
      invariant FaultFrom(e, offset) == FaultFrom(e, 0)
      invariant fields > 0 <==> HasField(e, offset)
    {
      var marker := e[offset];
      var max := MaxWidth(marker);
      if max > 0 {
        var end := EndOfRun(e, offset);
        var width := end - offset;
        if width > max {
          return Err(TooWide(marker, width, max));
        }
        AddRun(t, e, offset, rendered);
        rendered := rendered + FieldValue(t, marker)[max - width..];
        fields := fields + 1;
        offset := end;
      } else if !IsSeparator(marker) {
        return Err(Unsupported(marker));
      } else {
        AddSeparator(t, e, offset, rendered);
        rendered := rendered + [marker];
        offset := offset + 1;
      }
    }
    RenderedAll(t, e, rendered);
    if fields == 0 {
      return Err(NoField);
    }
    return Ok(rendered);
  }

  lemma NothingRendered(t: Moment, e: string)
    ensures RenderedSoFar(t, e, 0, "") && !HasField(e, 0)
  {
  }

  lemma RenderedAll(t: Moment, e: string, rendered: string)
    requires e != "" && RenderedSoFar(t, e, |e|, rendered) && FaultFrom(e, 0).None?
    ensures RenderedExpression(t, e) == if HasField(e, |e|) then Ok(rendered) else Err(NoField)
  {
    hide FineAt, CharAt;
    if HasField(e, |e|) {
      assert rendered == Shown(t, e);
    }
  }

  lemma AddSeparator(t: Moment, e: string, offset: nat, rendered: string)
    requires offset < |e| && RenderedSoFar(t, e, offset, rendered) && !IsField(e[offset]) && IsSeparator(e[offset])
    ensures RenderedSoFar(t, e, offset + 1, rendered + [e[offset]])
    ensures HasField(e, offset + 1) <==> HasField(e, offset)
  {
    hide IsSeparator, MaxWidth, FieldValue, RunEnd;
  }

  method EndOfRun(e: string, offset: nat) returns (end: nat)
    requires offset < |e|
    ensures end == RunEnd(e, offset)
  {
    end := offset + 1;
    while end < |e| && e[end] == e[offset]
      invariant offset < end <= |e|
      invariant e[end - 1] == e[offset] && RunEnd(e, end - 1) == RunEnd(e, offset)
    {
      end := end + 1;
    }
  }

  lemma AddRun(t: Moment, e: string, offset: nat, rendered: string)
    requires offset < |e| && IsField(e[offset]) && RunEnd(e, offset) - offset <= MaxWidth(e[offset])
    requires RenderedSoFar(t, e, offset, rendered)
    ensures var end := RunEnd(e, offset);
            && RenderedSoFar(t, e, end, rendered + FieldValue(t, e[offset])[MaxWidth(e[offset]) - (end - offset)..])
            && HasField(e, end)
  {
    hide IsSeparator, MaxWidth, FieldValue, RunEnd;
    RunIs(e, offset);
    var end := RunEnd(e, offset);
    var value, width := FieldValue(t, e[offset]), MaxWidth(e[offset]);
    var next := rendered + value[width - (end - offset)..];
    forall j | 0 <= j < end ensures FineAt(e, j) && next[j] == CharAt(t, e, j) {
      if j >= offset {
        assert e[j] == e[offset] && RunEnd(e, j) == end;
        assert next[j] == value[width - (end - offset)..][j - offset];
      }
    }
    assert IsField(e[offset]);
  }

  // ----- Templates --------------------------------------------------------------------------------------------

  predicate IsBrace(c: char) {
    c == '{' || c == '}'
  }

  predicate Plain(s: string) {
    forall i | 0 <= i < |s| :: !IsBrace(s[i])
  }

  /** The next brace, or the end. */
  function BraceFrom(t: string, i: nat): (j: nat)
    requires i <= |t|
    ensures i <= j <= |t| && (j < |t| ==> IsBrace(t[j])) && forall k | i <= k < j :: !IsBrace(t[k])
    decreases |t| - i
  {
    if i == |t| || IsBrace(t[i]) then i else BraceFrom(t, i + 1)
  }

  /** What stands for one block: a context entry comes before a date expression. */
  function Block(now: Moment, context: Context, e: string): Result<string, Failure> {
    if e != "" && context.Some? && e in context.value then
      if context.value[e].Some? then Ok(context.value[e].value) else Err(Failure(Some(e), ContextNotText))
    else
      match RenderedExpression(now, e)
      case Ok(s) => Ok(s)
      case Err(reason) => Err(Failure(Some(e), reason))
  }

  function Joined(s: string, r: Result<string, Failure>): Result<string, Failure> {
    match r case Ok(rest) => Ok(s + rest) case Err(f) => Err(f)
  }

  /** The reference: one pass that is either outside a block or inside one. */
  function Scanned(now: Moment, context: Context, t: string, i: nat): Result<string, Failure>
    requires i <= |t|
    decreases |t| - i
  {
    if i == |t| then Ok("")
    else if t[i] == '}' then Err(Failure(None, IncompleteBraces))
    else if t[i] != '{' then Joined([t[i]], Scanned(now, context, t, i + 1))
    else
      var j := BraceFrom(t, i + 1);
      if j == |t| || t[j] == '{' then Err(Failure(None, IncompleteBraces))
      else
        match Block(now, context, t[i + 1..j])
        case Err(f) => Err(f)
        case Ok(s) => Joined(s, Scanned(now, context, t, j + 1))
  }

  /** The leftmost match of an opening brace, no braces, and a closing brace. */
  function NextMatch(t: string, from: nat): (m: Option<(nat, nat)>)
    requires from <= |t|
    ensures m.Some? ==> from <= m.value.0 && m.value.0 + 2 <= m.value.1 <= |t| && t[m.value.0] == '{'
                        && BraceFrom(t, m.value.0 + 1) == m.value.1 - 1 && t[m.value.1 - 1] == '}'
    decreases |t| - from
  {
    if from == |t| then None
    else if t[from] == '{' && BraceFrom(t, from + 1) < |t| && t[BraceFrom(t, from + 1)] == '}' then
      Some((from, BraceFrom(t, from + 1) + 1))
    else NextMatch(t, from + 1)
  }

  lemma JoinedTwice(a: string, b: string, r: Result<string, Failure>)
    ensures Joined(a, Joined(b, r)) == Joined(a + b, r)
  {
    if r.Ok? {
      assert a + (b + r.value) == (a + b) + r.value;
    }
  }

  lemma JoinedNothing(r: Result<string, Failure>)
    ensures Joined("", r) == r
  {
    if r.Ok? {
      assert "" + r.value == r.value;
    }
  }

  lemma {:induction false} PlainScan(now: Moment, context: Context, t: string, i: nat, j: nat)
    requires i <= j <= |t| && Plain(t[i..j])
    ensures Scanned(now, context, t, i) == Joined(t[i..j], Scanned(now, context, t, j))
    decreases j - i
  {
    if i == j {
      assert t[i..j] == "";
      JoinedNothing(Scanned(now, context, t, j));
    } else {
      assert t[i..j][0] == t[i];
      assert t[i..j] == [t[i]] + t[i + 1..j];
      var rest := t[i + 1..j];
      forall k | 0 <= k < |rest| ensures !IsBrace(rest[k]) {
        assert rest[k] == t[i..j][k + 1];
      }
      PlainScan(now, context, t, i + 1, j);
      JoinedTwice([t[i]], t[i + 1..j], Scanned(now, context, t, j));
    }
  }

  /** A brace before the next match, or without one, is what the scanner stops at. */
  lemma {:induction false} StrayBrace(now: Moment, context: Context, t: string, i: nat)
    requires i <= |t|
    requires var end := if NextMatch(t, i).Some? then NextMatch(t, i).value.0 else |t|; !Plain(t[i..end])
    ensures Scanned(now, context, t, i) == Err(Failure(None, IncompleteBraces))
    decreases |t| - i
  {
    var end := if NextMatch(t, i).Some? then NextMatch(t, i).value.0 else |t|;
    assert i < end;
    if !IsBrace(t[i]) {
      assert NextMatch(t, i) == NextMatch(t, i + 1);
      var k :| 0 <= k < |t[i..end]| && IsBrace(t[i..end][k]);
      assert t[i + 1..end][k - 1] == t[i..end][k];
      StrayBrace(now, context, t, i + 1);
    }
  }

  lemma BlockScan(now: Moment, context: Context, t: string, i: nat)
    requires i <= |t| && NextMatch(t, i).Some?
    ensures var (start, end) := NextMatch(t, i).value;
            Scanned(now, context, t, start) == match Block(now, context, t[start + 1..end - 1])
                                               case Err(f) => Err(f)
                                               case Ok(s) => Joined(s, Scanned(now, context, t, end))
  {
    hide Block, NextMatch, BraceFrom, Joined;
  }

  lemma ScannedAll(now: Moment, context: Context, t: string)
    ensures Scanned(now, context, t, |t|) == Ok("")
  {
  }

  method RenderBlock(now: Moment, context: Context, expression: string) returns (r: Result<string, Failure>)
    ensures r == Block(now, context, expression)
  {
    if expression != "" && context.Some? && expression in context.value {
      if context.value[expression].None? {
        return Err(Failure(Some(expression), ContextNotText));
      }
      return Ok(context.value[expression].value);
    }
    var e := RenderExpression(now, expression);
    if e.Err? {
      return Err(Failure(Some(expression), e.error));
    }
    return Ok(e.value);
  }

  /** `render_date_time_template`: the regular-expression loop gives exactly what the two-state scanner gives,
      the same text or the same first failure. */
  method RenderTemplate(t: string, now: Moment, context: Context) returns (r: Result<string, Failure>)
    ensures r == Scanned(now, context, t, 0)
  {
    hide Scanned, NextMatch, Plain, Block;
    var rendered := "";
    var cursor := 0;
    var match' := NextMatch(t, 0);
    JoinedNothing(Scanned(now, context, t, 0));
    while match'.Some?
      invariant 0 <= cursor <= |t| && match' == NextMatch(t, cursor)
      invariant Scanned(now, context, t, 0) == Joined(rendered, Scanned(now, context, t, cursor))
      decreases |t| - cursor
    {
      var (start, end) := match'.value;
      var literal := t[cursor..start];
      if !Plain(literal) {
        StrayBrace(now, context, t, cursor);
        return Err(Failure(None, IncompleteBraces));
      }
      PlainScan(now, context, t, cursor, start);
      JoinedTwice(rendered, literal, Scanned(now, context, t, start));
      BlockScan(now, context, t, cursor);
      var block := RenderBlock(now, context, t[start + 1..end - 1]);
      if block.Err? {
        return block;
      }
      JoinedTwice(rendered + literal, block.value, Scanned(now, context, t, end));
      rendered := rendered + literal + block.value;
      cursor := end;
      match' := NextMatch(t, cursor);
    }
    var remainder := t[cursor..];
    assert remainder == t[cursor..|t|];
    if !Plain(remainder) {
      StrayBrace(now, context, t, cursor);
      return Err(Failure(None, IncompleteBraces));
    }
    PlainScan(now, context, t, cursor, |t|);
    ScannedAll(now, context, t);
    JoinedTwice(rendered, remainder, Ok(""));
    assert rendered + remainder + "" == rendered + remainder;
    return Ok(rendered + remainder);
  }

  // ----- What is accepted, and how long it gets -----------------------------------------------------------------

  /** The expressions of a template whose braces pair up. */
  function Expressions(t: string, i: nat): Option<seq<string>>
    requires i <= |t|
    decreases |t| - i
  {
    if i == |t| then Some([])
    else if t[i] == '}' then None
    else if t[i] != '{' then Expressions(t, i + 1)
    else
      var j := BraceFrom(t, i + 1);
      if j == |t| || t[j] == '{' then None
      else match Expressions(t, j + 1) case None => None case Some(rest) => Some([t[i + 1..j]] + rest)
  }

  lemma {:induction false} AcceptedFrom(now: Moment, context: Context, t: string, i: nat)
    requires i <= |t|
    ensures Scanned(now, context, t, i).Ok? <==>
            Expressions(t, i).Some? && forall e | e in Expressions(t, i).value :: Block(now, context, e).Ok?
    decreases |t| - i
  {
    hide Block;
    if i < |t| && t[i] != '}' {
      if t[i] != '{' {
        AcceptedFrom(now, context, t, i + 1);
      } else {
        var j := BraceFrom(t, i + 1);
        if j < |t| && t[j] == '}' {
          AcceptedFrom(now, context, t, j + 1);
        }
      }
    }
  }

  /** A template is accepted exactly when its braces pair up and every block is a context text or a valid
      expression; the time plays no part. */
  lemma Accepted(now: Moment, context: Context, t: string)
    ensures Scanned(now, context, t, 0).Ok? <==>
            Expressions(t, 0).Some?
            && forall e | e in Expressions(t, 0).value ::
                 if e != "" && context.Some? && e in context.value then context.value[e].Some? else ValidExpression(e)
  {
    AcceptedFrom(now, context, t, 0);
    assert forall e :: Block(now, context, e).Ok? <==>
      if e != "" && context.Some? && e in context.value then context.value[e].Some? else ValidExpression(e);
  }

  /** Without a context only the braces go away. */
  lemma {:induction false} LengthIs(now: Moment, t: string, i: nat)
    requires i <= |t| && Scanned(now, None, t, i).Ok?
    ensures Expressions(t, i).Some?
    ensures |Scanned(now, None, t, i).value| == |t| - i - 2 * |Expressions(t, i).value|
    decreases |t| - i
  {
    if i < |t| {
      if t[i] != '{' {
        LengthIs(now, t, i + 1);
      } else {
        LengthIs(now, t, BraceFrom(t, i + 1) + 1);
      }
    }
  }

  // ----- Sorting by name is sorting by time ---------------------------------------------------------------------

  /** Code-point order, as strings compare. */
  predicate Less(a: string, b: string) {
    b != "" && (a == "" || a[0] < b[0] || (a[0] == b[0] && Less(a[1..], b[1..])))
  }

  lemma {:induction false} LessAppend(a: string, b: string, c: string, d: string)
    requires |a| == |b|
    ensures Less(a + c, b + d) <==> Less(a, b) || (a == b && Less(c, d))
  {
    if a == "" {
      assert a + c == c && b + d == d;
    } else {
      assert (a + c)[1..] == a[1..] + c && (b + d)[1..] == b[1..] + d;
      LessAppend(a[1..], b[1..], c, d);
      assert a == [a[0]] + a[1..] && b == [b[0]] + b[1..];
    }
  }

  function Power(width: nat): nat {
    if width == 0 then 1 else 10 * Power(width - 1)
  }

  lemma {:induction false} PaddedOrder(m: nat, n: nat, width: nat)
    requires m < Power(width) && n < Power(width)
    ensures Less(Padded(m, width), Padded(n, width)) <==> m < n
    ensures Padded(m, width) == Padded(n, width) <==> m == n
  {
    if width > 0 {
      PaddedOrder(m / 10, n / 10, width - 1);
      DigitOrder(m % 10, n % 10);
      LessAppend(Padded(m / 10, width - 1), Padded(n / 10, width - 1), [Digit(m % 10)], [Digit(n % 10)]);
      var p, q := Padded(m, width), Padded(n, width);
      assert p[..width - 1] == Padded(m / 10, width - 1) && q[..width - 1] == Padded(n / 10, width - 1);
      assert p[width - 1] == Digit(m % 10) && q[width - 1] == Digit(n % 10);
    }
  }

  lemma DigitOrder(a: nat, b: nat)
    requires a < 10 && b < 10
    ensures (Digit(a) < Digit(b) <==> a < b) && (Digit(a) == Digit(b) <==> a == b)
    ensures Less([Digit(a)], [Digit(b)]) <==> a < b
  {
    DigitCode(a);
    DigitCode(b);
  }

  lemma DigitCode(a: nat)
    requires a < 10
    ensures Digit(a) as int == '0' as int + a
  {
  }

  const STAMP := "{YYYYMMDDhhmmssSSS}"

  /** Earlier, when only whole milliseconds count. */
  predicate Earlier(a: Moment, b: Moment) {
    a.year < b.year || (a.year == b.year &&
    (a.month < b.month || (a.month == b.month &&
    (a.day < b.day || (a.day == b.day &&
    (a.hour < b.hour || (a.hour == b.hour &&
    (a.minute < b.minute || (a.minute == b.minute &&
    (a.second < b.second || (a.second == b.second && a.micro / 1000 < b.micro / 1000)))))))))))
  }

  function Stamp(t: Moment): string {
    Padded(t.year, 4) + (Padded(t.month, 2) + (Padded(t.day, 2) + (Padded(t.hour, 2)
      + (Padded(t.minute, 2) + (Padded(t.second, 2) + Padded(t.micro / 1000, 3))))))
  }

  lemma StampOrder(a: Moment, b: Moment)
    requires a.Valid() && b.Valid()
    ensures Less(Stamp(a), Stamp(b)) <==> Earlier(a, b)
  {
    hide Padded, Less;
    assert Power(2) == 100 && Power(3) == 1000 && Power(4) == 10000;
    var a6, b6 := Padded(a.micro / 1000, 3), Padded(b.micro / 1000, 3);
    var a5, b5 := Padded(a.second, 2) + a6, Padded(b.second, 2) + b6;
    var a4, b4 := Padded(a.minute, 2) + a5, Padded(b.minute, 2) + b5;
    var a3, b3 := Padded(a.hour, 2) + a4, Padded(b.hour, 2) + b4;
    var a2, b2 := Padded(a.day, 2) + a3, Padded(b.day, 2) + b3;
    var a1, b1 := Padded(a.month, 2) + a2, Padded(b.month, 2) + b2;
    PaddedOrder(a.micro / 1000, b.micro / 1000, 3);
    PaddedOrder(a.second, b.second, 2);
    LessAppend(Padded(a.second, 2), Padded(b.second, 2), a6, b6);
    PaddedOrder(a.minute, b.minute, 2);
    LessAppend(Padded(a.minute, 2), Padded(b.minute, 2), a5, b5);
    PaddedOrder(a.hour, b.hour, 2);
    LessAppend(Padded(a.hour, 2), Padded(b.hour, 2), a4, b4);
    PaddedOrder(a.day, b.day, 2);
    LessAppend(Padded(a.day, 2), Padded(b.day, 2), a3, b3);
    PaddedOrder(a.month, b.month, 2);
    LessAppend(Padded(a.month, 2), Padded(b.month, 2), a2, b2);
    PaddedOrder(a.year, b.year, 4);
    LessAppend(Padded(a.year, 4), Padded(b.year, 4), a1, b1);
  }

  const FIELDS := "YYYYMMDDhhmmssSSS"

  lemma {:induction false} RunEndIs(e: string, i: nat, end: nat)
    requires i < end <= |e| && (forall j | i <= j < end :: e[j] == e[i]) && (end < |e| ==> e[end] != e[i])
    ensures RunEnd(e, i) == end
    decreases end - i
  {
    if i + 1 < end {
      RunEndIs(e, i + 1, end);
    }
  }

  lemma FieldRuns()
    ensures forall i | 0 <= i < |FIELDS| ::
              RunEnd(FIELDS, i) == (if i < 4 then 4 else if i < 6 then 6 else if i < 8 then 8 else if i < 10 then 10
                                    else if i < 12 then 12 else if i < 14 then 14 else 17)
  {
    RunEndIs(FIELDS, 0, 4);
    RunIs(FIELDS, 0);
    RunEndIs(FIELDS, 4, 6);
    RunIs(FIELDS, 4);
    RunEndIs(FIELDS, 6, 8);
    RunIs(FIELDS, 6);
    RunEndIs(FIELDS, 8, 10);
    RunIs(FIELDS, 8);
    RunEndIs(FIELDS, 10, 12);
    RunIs(FIELDS, 10);
    RunEndIs(FIELDS, 12, 14);
    RunIs(FIELDS, 12);
    RunEndIs(FIELDS, 14, 17);
    RunIs(FIELDS, 14);
  }

  lemma StampParts(t: Moment)
    ensures |Stamp(t)| == 17
    ensures Stamp(t)[0..4] == Padded(t.year, 4) && Stamp(t)[4..6] == Padded(t.month, 2)
            && Stamp(t)[6..8] == Padded(t.day, 2)
    ensures Stamp(t)[8..10] == Padded(t.hour, 2) && Stamp(t)[10..12] == Padded(t.minute, 2)
    ensures Stamp(t)[12..14] == Padded(t.second, 2) && Stamp(t)[14..17] == Padded(t.micro / 1000, 3)
  {
    hide Padded;
  }

  lemma FieldsShowStamp(t: Moment)
    ensures ValidExpression(FIELDS) && (forall i | 0 <= i < |FIELDS| :: FineAt(FIELDS, i))
            && Shown(t, FIELDS) == Stamp(t)
  {
    hide Padded, RunEnd, Stamp;
    FieldRuns();
    StampParts(t);
    assert IsField(FIELDS[0]);
    forall i | 0 <= i < 17 ensures FineAt(FIELDS, i) && CharAt(t, FIELDS, i) == Stamp(t)[i] {
      if i < 4 {
        assert Stamp(t)[i] == Stamp(t)[0..4][i];
      } else if i < 6 {
        assert Stamp(t)[i] == Stamp(t)[4..6][i - 4];
      } else if i < 8 {
        assert Stamp(t)[i] == Stamp(t)[6..8][i - 6];
      } else if i < 10 {
        assert Stamp(t)[i] == Stamp(t)[8..10][i - 8];
      } else if i < 12 {
        assert Stamp(t)[i] == Stamp(t)[10..12][i - 10];
      } else if i < 14 {
        assert Stamp(t)[i] == Stamp(t)[12..14][i - 12];
      } else {
        assert Stamp(t)[i] == Stamp(t)[14..17][i - 14];
      }
    }
  }

  /** Rendering the full stamp and comparing the texts compares the times, to the millisecond. */
  lemma StampsSortByTime(a: Moment, b: Moment)
    requires a.Valid() && b.Valid()
    ensures Scanned(a, None, STAMP, 0).Ok? && Scanned(b, None, STAMP, 0).Ok?
    ensures Less(Scanned(a, None, STAMP, 0).value, Scanned(b, None, STAMP, 0).value) <==> Earlier(a, b)
  {
    StampIsRendered(a);
    StampIsRendered(b);
    StampOrder(a, b);
  }

  lemma StampBraces()
    ensures |STAMP| == 19 && STAMP[0] == '{' && STAMP[18] == '}' && STAMP[1..18] == FIELDS && BraceFrom(STAMP, 1) == 18
  {
    forall k | 1 <= k < 18 ensures !IsBrace(STAMP[k]) {
      assert STAMP[k] == FIELDS[k - 1];
    }
  }

  lemma OneBlock(t: Moment, context: Context, s: string, j: nat)
    requires 1 <= j && |s| == j + 1 && s[0] == '{' && s[j] == '}' && BraceFrom(s, 1) == j
    ensures Scanned(t, context, s, 0) == Block(t, context, s[1..j])
  {
    hide Block, BraceFrom;
    ScannedAll(t, context, s);
    if Block(t, context, s[1..j]).Ok? {
      assert Block(t, context, s[1..j]).value + "" == Block(t, context, s[1..j]).value;
    }
  }

  lemma StampIsRendered(t: Moment)
    ensures Scanned(t, None, STAMP, 0) == Ok(Stamp(t))
  {
    hide RenderedExpression, Stamp, Scanned;
    StampBraces();
    OneBlock(t, None, STAMP, 18);
    FieldsShowStamp(t);
    var r := RenderedExpression(t, FIELDS);
    assert r.Ok? && r.value == Shown(t, FIELDS);
  }
}
