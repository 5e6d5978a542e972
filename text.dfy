/**
  The handful of Python `str` operations the client relies on, on `seq<char>`.
  Case mapping is ASCII only.
 */
module Text {

  import opened Wrappers

  /** `s.endswith(suffix)` */
  predicate EndsWith(s: string, suffix: string) {
    |suffix| <= |s| && s[|s| - |suffix|..] == suffix
  }

  /** `word` occurs in `s` starting at index `i`. */
  predicate OccursAt(s: string, word: string, i: int) {
    0 <= i && i + |word| <= |s| && s[i..i + |word|] == word
  }

  /** Python's substring test `word in s`. */
  predicate Contains(s: string, word: string) {
    exists i | 0 <= i <= |s| - |word| :: OccursAt(s, word, i)
  }

  function LowerChar(c: char): char {
    if 'A' <= c <= 'Z' then (c as int + 32) as char else c
  }

  function UpperChar(c: char): char {
    if 'a' <= c <= 'z' then (c as int - 32) as char else c
  }

  /** `s.lower()` restricted to ASCII letters. */
  function Lower(s: string): string {
    seq(|s|, i requires 0 <= i < |s| => LowerChar(s[i]))
  }

  /** `s.upper()` restricted to ASCII letters. */
  function Upper(s: string): string {
    seq(|s|, i requires 0 <= i < |s| => UpperChar(s[i]))
  }

  /** `s.lstrip(c)`: `s` without its leading run of `c`. */
  function LStrip(s: string, c: char): (r: string)
    ensures EndsWith(s, r)
    ensures forall i :: 0 <= i < |s| - |r| ==> s[i] == c
    ensures r == [] || r[0] != c
    decreases |s|
  {
    if |s| > 0 && s[0] == c then
      var r := LStrip(s[1..], c);
      assert s[1..][|s[1..]| - |r|..] == s[|s| - |r|..];
      assert forall i :: 1 <= i < |s| ==> s[i] == s[1..][i - 1];
      r
    else s
  }

  /** `sep.join(parts)` */
  function Join(parts: seq<string>, sep: string): string {
    if |parts| == 0 then ""
    else if |parts| == 1 then parts[0]
    else parts[0] + sep + Join(parts[1..], sep)
  }

  /** `s.split(c)`: the pieces between occurrences of `c`; always at least one. */
  function Split(s: string, c: char): (parts: seq<string>)
    ensures |parts| >= 1
    ensures forall k :: 0 <= k < |parts| ==> c !in parts[k]
    ensures Join(parts, [c]) == s
    decreases |s|
  {
    if |s| == 0 then [""]
    else
      var rest := Split(s[1..], c);
      if s[0] == c then [""] + rest
      else [[s[0]] + rest[0]] + rest[1..]
  }

  /** The part of `s` before the first `c` (all of `s` when there is none). */
  function Before(s: string, c: char): string {
    Split(s, c)[0]
  }

  /** The part of `s` after the first `c`, if `s` contains `c`. */
  function After(s: string, c: char): Option<string>
    decreases |s|
  {
    if |s| == 0 then None
    else if s[0] == c then Some(s[1..])
    else After(s[1..], c)
  }

  /** Each part but the first prefixed by `pad`. */
  function PadTail(parts: seq<string>, pad: string): seq<string>
    requires |parts| >= 1
  {
    [parts[0]] + seq(|parts| - 1, i requires 0 <= i < |parts| - 1 => pad + parts[i + 1])
  }

  /** An empty pad changes nothing. */
  lemma PadTailEmpty(parts: seq<string>)
    requires |parts| >= 1
    ensures PadTail(parts, "") == parts
  {
    var padded := PadTail(parts, "");
    assert forall i :: 0 <= i < |parts| ==> padded[i] == parts[i] by {
      forall i | 1 <= i < |parts| ensures padded[i] == parts[i] {
        assert padded[i] == "" + parts[i];
      }
    }
  }

  /** Splitting at a character the first piece does not contain yields that piece first. */
  lemma {:induction false} SplitAt(a: string, c: char, b: string)
    requires c !in a
    ensures Split(a + [c] + b, c) == [a] + Split(b, c)
    decreases |a|
  {
    if |a| == 0 {
      assert a + [c] + b == [c] + b;
      assert ([c] + b)[1..] == b;
    } else {
      assert (a + [c] + b)[1..] == a[1..] + [c] + b;
      SplitAt(a[1..], c, b);
      assert [a[0]] + a[1..] == a;
    }
  }

  /** A string without the separator is a single piece. */
  lemma {:induction false} SplitNone(a: string, c: char)
    requires c !in a
    ensures Split(a, c) == [a]
    decreases |a|
  {
    if |a| > 0 {
      SplitNone(a[1..], c);
      assert [a[0]] + a[1..] == a;
    }
  }

  /**
    Joining with `c` followed by `pad` and splitting at `c` gives the parts back, every
    part after the first carrying the `pad` in front.
   */
  lemma {:induction false} SplitJoin(parts: seq<string>, c: char, pad: string)
    requires |parts| >= 1
    requires forall k :: 0 <= k < |parts| ==> c !in parts[k]
    requires c !in pad
    ensures Split(Join(parts, [c] + pad), c) == PadTail(parts, pad)
    decreases |parts|
  {
    if |parts| == 1 {
      SplitNone(parts[0], c);
    } else {
      var tail := parts[1..];
      var joined := Join(tail, [c] + pad);
      assert Join(parts, [c] + pad) == parts[0] + [c] + (pad + joined);
      SplitAt(parts[0], c, pad + joined);
      SplitJoin(tail, c, pad);
      PadPrefix(pad, joined, c);
      PadTailCons(parts, pad);
    }
  }

  /** Padding the tail of `parts` pads the first piece of the padded tail of `parts[1..]`. */
  lemma PadTailCons(parts: seq<string>, pad: string)
    requires |parts| >= 2
    ensures var inner := PadTail(parts[1..], pad);
      PadTail(parts, pad) == [parts[0]] + ([pad + inner[0]] + inner[1..])
  {
    var inner := PadTail(parts[1..], pad);
    var lhs := PadTail(parts, pad);
    var rhs := [parts[0]] + ([pad + inner[0]] + inner[1..]);
    assert |lhs| == |rhs|;
    forall i | 0 <= i < |lhs| ensures lhs[i] == rhs[i] {
      if i >= 2 {
        assert rhs[i] == inner[i - 1];
      }
    }
  }

  /** Putting a separator-free `pad` in front of a string lengthens only its first piece. */
  lemma {:induction false} PadPrefix(pad: string, s: string, c: char)
    requires c !in pad
    ensures Split(pad + s, c) == [pad + Split(s, c)[0]] + Split(s, c)[1..]
    decreases |pad|
  {
    if |pad| > 0 {
      assert (pad + s)[1..] == pad[1..] + s;
      assert (pad + s)[0] == pad[0] && pad[0] != c;
      PadPrefix(pad[1..], s, c);
      var rest := Split(pad[1..] + s, c);
      assert Split(pad + s, c) == [[pad[0]] + rest[0]] + rest[1..];
      assert rest[0] == pad[1..] + Split(s, c)[0] && rest[1..] == Split(s, c)[1..];
      assert [pad[0]] + (pad[1..] + Split(s, c)[0]) == pad + Split(s, c)[0];
    } else {
      assert pad + s == s && pad + Split(s, c)[0] == Split(s, c)[0];
    }
  }

  /** `After` finds the text behind the first occurrence. */
  lemma {:induction false} AfterAt(a: string, c: char, b: string)
    requires c !in a
    ensures After(a + [c] + b, c) == Some(b)
    decreases |a|
  {
    if |a| == 0 {
      assert a + [c] + b == [c] + b;
      assert ([c] + b)[1..] == b;
    } else {
      assert (a + [c] + b)[1..] == a[1..] + [c] + b;
      AfterAt(a[1..], c, b);
    }
  }

  /** A string without `c` has nothing after `c`. */
  lemma {:induction false} AfterNone(a: string, c: char)
    requires c !in a
    ensures After(a, c) == None
    decreases |a|
  {
    if |a| > 0 {
      AfterNone(a[1..], c);
    }
  }
}
