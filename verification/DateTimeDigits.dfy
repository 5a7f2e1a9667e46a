/**
 What a rendered date expression shows, told by numbers: which expressions are accepted by the documented letters and
 widths, and that every run of a letter shows its number modulo a power of ten.
 */
module DateTimeDigits {
  import opened Common
  import opened DateTimeTemplate

  /** The documented letters with the widest run of each, and the characters that may stand between. */
  const WIDEST: map<char, nat> :=
    map['Y' := 4, 'M' := 2, 'D' := 2, 'h' := 2, 'm' := 2, 's' := 2, 'S' := 3]
  const BETWEEN: set<char> := {'-', '_', '.', ' ', ':', '/', 'T'}

  /** The number a letter stands for. */
  function NumberOf(t: Moment, c: char): nat {
    match c
    case 'Y' => t.year
    case 'M' => t.month
    case 'D' => t.day
    case 'h' => t.hour
    case 'm' => t.minute
    case 's' => t.second
    case _ => t.micro / 1000
  }

  /** All of one run: equal characters with another one, or nothing, on either side. */
  predicate WholeRun(e: string, from: nat, end: nat) {
    && from < end <= |e| && (forall j | from <= j < end :: e[j] == e[from])
    && (from > 0 ==> e[from - 1] != e[from]) && (end < |e| ==> e[end] != e[from])
  }

  predicate Digits(s: string) {
    forall i | 0 <= i < |s| :: '0' <= s[i] <= '9'
  }

  /** The number a decimal text denotes. */
  function Denoted(s: string): int {
    if s == "" then 0 else 10 * Denoted(s[..|s| - 1]) + (s[|s| - 1] as int - '0' as int)
  }

  lemma LastDigits(n: nat, power: nat)
    requires power > 0
    ensures n % (10 * power) == 10 * ((n / 10) % power) + n % 10
  {
    var q, r := n / 10, n % 10;
    var a, b := q / power, q % power;
    assert n == 10 * (a * power + b) + r == a * (10 * power) + (10 * b + r);
    assert 10 * b + r < 10 * power;
    Remainder(n, 10 * power, a, 10 * b + r);
  }

  lemma Remainder(n: nat, d: nat, q: nat, r: nat)
    requires d > 0 && n == q * d + r && r < d
    ensures n % d == r
  {
    var a, b := n / d, n % d;
    assert a * d + b == q * d + r;
    if a < q {
      Multiples(a, q, d);
      assert false;
    } else if q < a {
      Multiples(q, a, d);
      assert false;
    }
  }

  lemma Multiples(a: nat, b: nat, d: nat)
    requires a < b
    ensures a * d + d <= b * d
  {
    assert (a + 1) * d <= b * d;
  }

  lemma PowerPositive(k: nat)
    ensures Power(k) > 0
  {
  }

  /** The last `k` digits of a padded number. */
  lemma {:induction false} PaddedTail(n: nat, width: nat, k: nat)
    requires k <= width
    ensures Digits(Padded(n, width)[width - k..])
    ensures Power(k) > 0 && Denoted(Padded(n, width)[width - k..]) == n % Power(k)
  {
    PowerPositive(k);
    if k > 0 {
      PaddedTail(n / 10, width - 1, k - 1);
      PowerPositive(k - 1);
      LastDigits(n, Power(k - 1));
      DigitCode(n % 10);
      var tail := Padded(n, width)[width - k..];
      assert tail == Padded(n / 10, width - 1)[width - k..] + [Digit(n % 10)];
      assert tail[..k - 1] == Padded(n / 10, width - 1)[width - k..];
    }
  }

  lemma FieldTail(t: Moment, c: char, k: nat)
    requires IsField(c) && k <= MaxWidth(c)
    ensures var tail := FieldValue(t, c)[MaxWidth(c) - k..];
            Digits(tail) && Power(k) > 0 && Denoted(tail) == NumberOf(t, c) % Power(k)
  {
    hide Padded, Digits, Denoted, Power;
    PaddedTail(NumberOf(t, c), MaxWidth(c), k);
  }

  lemma LettersAre(c: char)
    ensures IsField(c) <==> c in WIDEST
    ensures c in WIDEST ==> MaxWidth(c) == WIDEST[c]
    ensures IsSeparator(c) <==> c in BETWEEN
  {
  }

  lemma WholeRunEnds(e: string, from: nat, end: nat)
    requires WholeRun(e, from, end)
    ensures forall j | from <= j < end :: RunEnd(e, j) == end
  {
    forall j: nat | from <= j < end ensures RunEnd(e, j) == end {
      RunEndIs(e, j, end);
    }
  }

  /** Every run of a letter shows its number, without the digits there is no room for. */
  lemma RunShows(t: Moment, e: string, from: nat, end: nat)
    requires RenderedExpression(t, e).Ok? && WholeRun(e, from, end) && e[from] in WIDEST
    ensures |RenderedExpression(t, e).value| == |e| && end - from <= WIDEST[e[from]]
    ensures var shown := RenderedExpression(t, e).value[from..end];
            Digits(shown) && Power(end - from) > 0 && Denoted(shown) == NumberOf(t, e[from]) % Power(end - from)
  {
    hide RunEnd, FieldValue, Digits, Denoted, Power, NumberOf, MaxWidth, IsSeparator;
    LettersAre(e[from]);
    WholeRunEnds(e, from, end);
    assert FineAt(e, from);
    var width := MaxWidth(e[from]);
    var tail := FieldValue(t, e[from])[width - (end - from)..];
    var r := RenderedExpression(t, e).value;
    forall j | from <= j < end ensures r[j] == tail[j - from] {
      assert FineAt(e, j) && r[j] == CharAt(t, e, j);
    }
    assert r[from..end] == tail;
    FieldTail(t, e[from], end - from);
  }

  /** Whatever is no letter shows itself. */
  lemma RestStays(t: Moment, e: string, i: nat)
    requires RenderedExpression(t, e).Ok? && i < |e| && e[i] !in WIDEST
    ensures i < |RenderedExpression(t, e).value| && RenderedExpression(t, e).value[i] == e[i]
  {
    hide RunEnd, FieldValue, MaxWidth, IsSeparator;
    LettersAre(e[i]);
    assert FineAt(e, i);
  }

  /** A letter, no character but letters and those between, and no run of a letter that is too wide. */
  ghost predicate Documented(e: string) {
    && (exists i | 0 <= i < |e| :: e[i] in WIDEST)
    && (forall i | 0 <= i < |e| :: e[i] in WIDEST || e[i] in BETWEEN)
    && (forall from: nat, end: nat | WholeRun(e, from, end) && e[from] in WIDEST :: end - from <= WIDEST[e[from]])
  }

  /** Exactly the documented expressions are accepted, whatever the time. */
  lemma AcceptedIs(t: Moment, e: string)
    ensures RenderedExpression(t, e).Ok? <==> Documented(e)
  {
    hide RunEnd, FieldValue, MaxWidth, IsSeparator, Shown, FaultFrom;
    forall i | 0 <= i < |e|
      ensures (IsField(e[i]) <==> e[i] in WIDEST) && (e[i] in WIDEST ==> MaxWidth(e[i]) == WIDEST[e[i]])
              && (IsSeparator(e[i]) <==> e[i] in BETWEEN)
    {
      LettersAre(e[i]);
    }
    if RenderedExpression(t, e).Ok? {
      forall from: nat, end: nat | WholeRun(e, from, end) && e[from] in WIDEST ensures end - from <= WIDEST[e[from]] {
        RunShows(t, e, from, end);
      }
      forall i | 0 <= i < |e| ensures e[i] in WIDEST || e[i] in BETWEEN {
        assert FineAt(e, i);
      }
      var i :| 0 <= i < |e| && IsField(e[i]);
    }
    if Documented(e) {
      forall i: nat | i < |e| ensures FineAt(e, i) {
        if e[i] in WIDEST {
          var from := RunStart(e, i, i);
          assert WholeRun(e, from, RunEnd(e, i));
        }
      }
      var i :| 0 <= i < |e| && e[i] in WIDEST;
      assert IsField(e[i]);
      assert ValidExpression(e);
    }
  }

  /** Where the run through `i` begins. */
  lemma {:induction false} RunStart(e: string, i: nat, j: nat) returns (from: nat)
    requires j <= i < |e| && forall m | j <= m < i :: e[m] == e[i]
    ensures from <= j && e[from] == e[i] && WholeRun(e, from, RunEnd(e, i))
    decreases j
  {
    RunIs(e, i);
    if j > 0 && e[j - 1] == e[i] {
      from := RunStart(e, i, j - 1);
    } else {
      from := j;
    }
  }
}
