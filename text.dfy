/**
 * String helpers of the scaffolding tool: the yes/no test applied to prompt
 * answers (create.js:134, 138) and the global literal replacement applied to
 * every configured file (create.js:159-160).
 */
module Text {

  /** ASCII lower-casing of one character. */
  function LowerChar(c: char): char
  {
    if 'A' <= c <= 'Z' then (c as int + 32) as char else c
  }

  /** `s.toLowerCase()`, restricted to the ASCII letters. */
  function Lower(s: string): string
  {
    seq(|s|, i requires 0 <= i < |s| => LowerChar(s[i]))
  }

  predicate StartsWith(s: string, prefix: string)
  {
    |prefix| <= |s| && s[..|prefix|] == prefix
  }

  /** The yes test of create.js: `answer.toLowerCase().startsWith("y")`. */
  predicate IsYes(answer: string)
  {
    StartsWith(Lower(answer), "y")
  }

  /** An answer is a yes exactly when its first character is `y` or `Y`. */
  lemma IsYesIff(answer: string)
    ensures IsYes(answer) <==> |answer| > 0 && (answer[0] == 'y' || answer[0] == 'Y')
  {
    if |answer| > 0 {
      assert Lower(answer)[..1] == [LowerChar(answer[0])];
    }
  }

  /** `t` occurs in `s` starting at position `i`. */
  predicate OccursAt(s: string, t: string, i: int)
  {
    0 <= i && i + |t| <= |s| && s[i..i + |t|] == t
  }

  /** `t` occurs in `s` at some position. */
  predicate Occurs(s: string, t: string)
  {
    exists i :: 0 <= i <= |s| && OccursAt(s, t, i)
  }

  /** An occurrence in a prefix of `s` is an occurrence in `s`. */
  lemma OccursInPrefix(s: string, p: string, t: string, i: int)
    requires StartsWith(s, p) && OccursAt(p, t, i)
    ensures OccursAt(s, t, i)
  {
    assert s[i..i + |t|] == p[i..i + |t|];
  }

  /** An occurrence after the first position of `s` is an occurrence in `s[1..]`. */
  lemma OccursFromTail(s: string, t: string, i: int)
    requires i > 0 && OccursAt(s, t, i)
    ensures OccursAt(s[1..], t, i - 1) && 0 <= i - 1 <= |s[1..]|
  {
    var j := i - 1;
    forall k | 0 <= k < |t| ensures s[1..][j..j + |t|][k] == t[k] {
      assert s[i..i + |t|][k] == s[i + k];
    }
    assert s[1..][j..j + |t|] == t;
  }

  /** An occurrence in `s[1..]` is an occurrence in `s`, one position later. */
  lemma OccursInTail(s: string, t: string, i: int)
    requires |s| > 0 && OccursAt(s[1..], t, i)
    ensures OccursAt(s, t, i + 1)
  {
    assert s[i + 1..i + 1 + |t|] == s[1..][i..i + |t|];
  }

  /**
   * The characters that `new RegExp(name, 'g')` does not take literally. A
   * name without any of them is matched as plain text.
   */
  predicate IsRegexLiteral(s: string)
  {
    forall i :: 0 <= i < |s| ==> s[i] !in "\\^$.|?*+()[]{}"
  }

  /**
   * Every leftmost, non-overlapping occurrence of `target` in `s` replaced by
   * `replacement`: the effect of `s.replace(new RegExp(target, 'g'), replacement)` when `target`
   * is a non-empty regex literal. The scan restarts after each replaced
   * occurrence, so replaced text is never scanned again.
   */
  function ReplaceAll(s: string, target: string, replacement: string): string
    requires |target| > 0
    decreases |s|
  {
    if |s| < |target| then s
    else if s[..|target|] == target then replacement + ReplaceAll(s[|target|..], target, replacement)
    else [s[0]] + ReplaceAll(s[1..], target, replacement)
  }

  /**
   * The pieces of `s` between the leftmost non-overlapping occurrences of
   * `sep` (JavaScript's `s.split(sep)`); a reference definition for
   * ReplaceAll.
   */
  function Split(s: string, sep: string): (pieces: seq<string>)
    requires |sep| > 0
    ensures |pieces| > 0
    decreases |s|
  {
    if |s| < |sep| then [s]
    else if s[..|sep|] == sep then [""] + Split(s[|sep|..], sep)
    else
      var rest := Split(s[1..], sep);
      [[s[0]] + rest[0]] + rest[1..]
  }

  /** The pieces glued together with `sep` between neighbours (`pieces.join(sep)`). */
  function Join(pieces: seq<string>, sep: string): string
    requires |pieces| > 0
    decreases |pieces|
  {
    if |pieces| == 1 then pieces[0] else pieces[0] + sep + Join(pieces[1..], sep)
  }

  lemma {:induction false} JoinConsChar(c: char, pieces: seq<string>, sep: string)
    requires |pieces| > 0
    ensures Join([[c] + pieces[0]] + pieces[1..], sep) == [c] + Join(pieces, sep)
  {
    var ps := [[c] + pieces[0]] + pieces[1..];
    if |pieces| > 1 {
      assert ps[1..] == pieces[1..];
    }
  }

  /** Text without any occurrence of `target` comes back unchanged. */
  lemma {:induction false} ReplaceNoMatch(s: string, target: string, replacement: string)
    requires |target| > 0
    requires !Occurs(s, target)
    ensures ReplaceAll(s, target, replacement) == s
    decreases |s|
  {
    if |s| >= |target| {
      assert !OccursAt(s, target, 0);
      forall i | OccursAt(s[1..], target, i)
        ensures false
      {
        OccursInTail(s, target, i);
      }
      ReplaceNoMatch(s[1..], target, replacement);
      assert [s[0]] + s[1..] == s;
    }
  }

  /** Replacing a name with itself is the identity. */
  lemma {:induction false} ReplaceSelf(s: string, target: string)
    requires |target| > 0
    ensures ReplaceAll(s, target, target) == s
    decreases |s|
  {
    if |s| >= |target| {
      if s[..|target|] == target {
        ReplaceSelf(s[|target|..], target);
        assert s[..|target|] + s[|target|..] == s;
      } else {
        ReplaceSelf(s[1..], target);
        assert [s[0]] + s[1..] == s;
      }
    }
  }

  /** Replacing is splitting at the occurrences and joining with the replacement text. */
  lemma {:induction false} ReplaceIsSplitJoin(s: string, target: string, replacement: string)
    requires |target| > 0
    ensures ReplaceAll(s, target, replacement) == Join(Split(s, target), replacement)
    decreases |s|
  {
    if |s| >= |target| {
      if s[..|target|] == target {
        ReplaceIsSplitJoin(s[|target|..], target, replacement);
        var rest := Split(s[|target|..], target);
        assert ([""] + rest)[1..] == rest;
      } else {
        ReplaceIsSplitJoin(s[1..], target, replacement);
        JoinConsChar(s[0], Split(s[1..], target), replacement);
      }
    }
  }

  /** Splitting and joining with the same separator gives the text back. */
  lemma SplitJoinRoundTrip(s: string, sep: string)
    requires |sep| > 0
    ensures Join(Split(s, sep), sep) == s
  {
    ReplaceIsSplitJoin(s, sep, sep);
    ReplaceSelf(s, sep);
  }

  /**
   * The text starts with the first piece, followed by `sep` when there are
   * more pieces.
   */
  lemma {:induction false} SplitPrefix(s: string, sep: string)
    requires |sep| > 0
    ensures StartsWith(s, Split(s, sep)[0])
    ensures |Split(s, sep)| > 1 ==> StartsWith(s, Split(s, sep)[0] + sep)
    decreases |s|
  {
    if |s| >= |sep| && s[..|sep|] != sep {
      SplitPrefix(s[1..], sep);
      var rest := Split(s[1..], sep);
      assert ([s[0]] + rest[0]) == s[..|rest[0]| + 1];
      if |rest| > 1 {
        assert ([s[0]] + rest[0] + sep) == s[..|rest[0]| + |sep| + 1];
      }
    }
  }

  /**
   * The pieces are the leftmost ones: no piece contains `sep`, and no
   * occurrence of `sep` starts inside a piece and runs into the separator
   * that follows it.
   */
  lemma {:induction false} SplitPiecesAreLeftmost(s: string, sep: string, k: nat)
    requires |sep| > 0
    requires k < |Split(s, sep)|
    ensures !Occurs(Split(s, sep)[k], sep)
    ensures k < |Split(s, sep)| - 1 ==> !Occurs(Split(s, sep)[k] + sep[..|sep| - 1], sep)
    decreases |s|
  {
    var ps := Split(s, sep);
    var tail := sep[..|sep| - 1];
    if |s| < |sep| {
      assert ps[k] == s;
    } else if s[..|sep|] == sep {
      if k > 0 {
        SplitPiecesAreLeftmost(s[|sep|..], sep, k - 1);
      }
    } else {
      var rest := Split(s[1..], sep);
      if k > 0 {
        SplitPiecesAreLeftmost(s[1..], sep, k);
      } else {
        SplitPiecesAreLeftmost(s[1..], sep, 0);
        SplitPrefix(s, sep);
        var p := ps[0];
        assert p == [s[0]] + rest[0];
        NoOccurrenceAfterHead(s, sep, p, rest[0]);
        if |ps| > 1 {
          assert |rest| > 1;
          assert StartsWith(s, p + tail) by {
            assert (p + sep)[..|p| + |tail|] == p + tail;
          }
          assert p + tail == [s[0]] + (rest[0] + tail);
          NoOccurrenceAfterHead(s, sep, p + tail, rest[0] + tail);
        }
      }
    }
  }

  /**
   * A prefix `[s[0]] + q` of `s` has no occurrence of `sep` when `s` does not
   * start with `sep` and `q` has none.
   */
  lemma NoOccurrenceAfterHead(s: string, sep: string, p: string, q: string)
    requires |sep| > 0 && |s| >= |sep| && s[..|sep|] != sep
    requires StartsWith(s, p) && |p| > 0 && p == [s[0]] + q
    requires !Occurs(q, sep)
    ensures !Occurs(p, sep)
  {
    forall i | OccursAt(p, sep, i)
      ensures false
    {
      if i == 0 {
        OccursInPrefix(s, p, sep, 0);
      } else {
        assert p[1..] == q;
        OccursFromTail(p, sep, i);
      }
    }
  }
}
