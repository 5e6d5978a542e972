/**
  `color_status` of vectra_auth.py: a status text wrapped in the terminal colour of the first
  keyword group that occurs in it, compared case-insensitively.
 */
module StatusColor {

  import opened Text

  datatype Color = Green | Yellow | Red | Blue | White

  const PositiveWords: seq<string> := ["ok", "enabled", "healthy", "good", "success"]
  const WarningWords: seq<string> := ["warning", "partially", "limited", "degraded"]
  const ErrorWords: seq<string> := ["critical", "disabled", "error", "fail", "stopped", "unavailable"]
  const InfoWords: seq<string> := ["info", "unknown", "pending"]

  /** The ANSI sequences colorama emits for `Fore.*` and `Style.RESET_ALL`. */
  const Reset := "\U{1b}[0m"

  function AnsiCode(c: Color): (code: string)
    ensures |code| == 5 && code[0] == '\U{1b}'
  {
    match c
    case Green => "\U{1b}[32m"
    case Yellow => "\U{1b}[33m"
    case Red => "\U{1b}[31m"
    case Blue => "\U{1b}[34m"
    case White => "\U{1b}[37m"
  }

  /** Python's `any(x in s for x in words)`. */
  predicate AnyIn(words: seq<string>, s: string) {
    exists k | 0 <= k < |words| :: Contains(s, words[k])
  }

  /** The colour group, tried in the order positive, warning, error, informational. */
  function Classify(status: string): (c: Color)
    ensures c == Green <==> AnyIn(PositiveWords, Lower(status))
    ensures c == Yellow <==> !AnyIn(PositiveWords, Lower(status)) && AnyIn(WarningWords, Lower(status))
    ensures c == Red <==>
      !AnyIn(PositiveWords, Lower(status)) && !AnyIn(WarningWords, Lower(status)) && AnyIn(ErrorWords, Lower(status))
    ensures c == White <==>
      !AnyIn(PositiveWords, Lower(status)) && !AnyIn(WarningWords, Lower(status))
      && !AnyIn(ErrorWords, Lower(status)) && !AnyIn(InfoWords, Lower(status))
  {
    var s := Lower(status);
    if AnyIn(PositiveWords, s) then Green
    else if AnyIn(WarningWords, s) then Yellow
    else if AnyIn(ErrorWords, s) then Red
    else if AnyIn(InfoWords, s) then Blue
    else White
  }

  /**
    `color_status(status, default)`: the status unchanged between its colour code and the
    reset code. The `default` argument is accepted and never used: unmatched text is white.
   */
  function ColorStatus(status: string, default: string): (r: string)
    ensures |r| == |status| + 9
    ensures r[..5] == AnsiCode(Classify(status))
    ensures r[5..|r| - 4] == status
    ensures r[|r| - 4..] == Reset
  {
    var code := AnsiCode(Classify(status));
    var r := code + status + Reset;
    assert r[..5] == code && r[5..|r| - 4] == status && r[|r| - 4..] == Reset;
    r
  }

  /** Distinct colours have distinct codes. */
  lemma AnsiCodeInjective(c1: Color, c2: Color)
    requires AnsiCode(c1) == AnsiCode(c2)
    ensures c1 == c2
  {
    assert AnsiCode(c1)[3] == AnsiCode(c2)[3];
  }

  /** The colour group can be read back from the code that opens the coloured text. */
  lemma ColorReadBack(status: string, default: string, c: Color)
    requires ColorStatus(status, default)[..5] == AnsiCode(c)
    ensures Classify(status) == c
  {
    AnsiCodeInjective(Classify(status), c);
  }

  /** Whatever default the caller names, unmatched text is coloured white. */
  lemma DefaultIgnored(status: string, d1: string, d2: string)
    ensures ColorStatus(status, d1) == ColorStatus(status, d2)
    ensures Classify(status) == White ==> ColorStatus(status, d1) == AnsiCode(White) + status + Reset
  {
  }

  /** Lower-casing forgets how the letters were cased. */
  lemma LowerOfUpper(s: string)
    ensures Lower(Upper(s)) == Lower(s)
  {
    assert forall i :: 0 <= i < |s| ==> Lower(Upper(s))[i] == Lower(s)[i];
  }

  /** The colour does not depend on the case of the status text. */
  lemma ClassifyIgnoresCase(status: string)
    ensures Classify(Upper(status)) == Classify(status)
  {
    LowerOfUpper(status);
  }

  /** First match wins: a status naming a warning word and a positive one is green. */
  lemma PartiallyOkIsGreen()
    ensures Classify("Partially OK") == Green
  {
    var s := Lower("Partially OK");
    assert s == "partially ok";
    assert OccursAt(s, PositiveWords[0], 10);
  }

  /** The keywords match inside words, so "Unhealthy" contains "healthy" and comes out green. */
  lemma UnhealthyIsGreen()
    ensures Classify("Unhealthy") == Green
  {
    var s := Lower("Unhealthy");
    assert s == "unhealthy";
    assert OccursAt(s, PositiveWords[2], 2);
  }
}
