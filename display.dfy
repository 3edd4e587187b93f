/** The two derived values both match views show: the score text and the match clock. */
module Display {
  import opened Wrappers
  import opened Seqs
  import opened Decimal

  /** `${goalsA}-${goalsB}`. */
  function ScoreText(a: nat, b: nat): string {
    DecimalText(a) + "-" + DecimalText(b)
  }

  /** Splits a score text at its first '-' and reads both halves back. */
  function ParseScore(s: string): Option<(nat, nat)> {
    match IndexOf(s, '-')
    case None => None
    case Some(k) =>
      match (ParseDecimal(s[..k]), ParseDecimal(s[k + 1..]))
      case (Some(a), Some(b)) => Some((a, b))
      case _ => None
  }

  /** The score text determines the score: two different scores never show the same text. */
  lemma ScoreTextRoundTrip(a: nat, b: nat)
    ensures ParseScore(ScoreText(a, b)) == Some((a, b))
  {
    var da, db := DecimalText(a), DecimalText(b);
    var s := ScoreText(a, b);
    assert s[|da|] == '-';
    var k := IndexOf(s, '-');
    assert k == Some(|da|);
    assert s[..|da|] == da;
    assert s[|da| + 1..] == db;
    ParseDecimalText(a);
    ParseDecimalText(b);
  }

  /** What a view shows as the match time. `Unknown` is JavaScript's NaN, printed as "NaN'". */
  datatype Clock = NotStarted | At(minute: int) | Unknown

  function ClockText(c: Clock): string {
    match c
    case NotStarted => "Not Started"
    case At(m) => IntText(m) + "'"
    case Unknown => "NaN'"
  }

  /** `Math.min(latestMinute + 1, 90)`: one past the latest minute seen, but never beyond 90. */
  function CappedMinute(latest: int): (m: int)
    ensures m <= 90
    ensures m == 90 || m == latest + 1
    ensures latest < 90 ==> m == latest + 1
    ensures latest >= 89 ==> m == 90
  {
    if latest + 1 < 90 then latest + 1 else 90
  }
}
