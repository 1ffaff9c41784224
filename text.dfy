/**
  The string operations of Rust's standard library that the saver chains
  together: `str::lines().next()`, `str::replace` and an ASCII-only
  `str::to_lowercase`. Strings are sequences of characters.
 */
module Text {
  import opened Outcomes

  /** True when `pat` occurs in `s` starting at index `k`. */
  predicate OccursAt(s: string, pat: string, k: nat)
  {
    k + |pat| <= |s| && s[k..k + |pat|] == pat
  }

  /** True when `pat` occurs somewhere inside `s`. */
  predicate Contains(s: string, pat: string)
  {
    exists k: nat | k <= |s| :: OccursAt(s, pat, k)
  }

  /** Index of the first line feed in `s`, or `|s|` when there is none. */
  function NewlineIndex(s: string): (i: nat)
    ensures i <= |s|
    ensures i < |s| ==> s[i] == '\n'
    ensures forall k :: 0 <= k < i ==> s[k] != '\n'
  {
    if s == [] || s[0] == '\n' then 0 else 1 + NewlineIndex(s[1..])
  }

  /**
    `s.lines().next()`: no line at all for the empty text; otherwise the
    text before the first line feed, where a carriage return standing
    right before that line feed belongs to the terminator. A carriage
    return that is not followed by a line feed stays in the line.
   */
  function FirstLineOpt(s: string): (line: Option<string>)
    ensures line.None? <==> s == []
    ensures line.Some? ==> '\n' !in line.value && line.value <= s
    ensures line.Some? && '\n' !in s ==> line.value == s
  {
    if s == [] then None
    else
      var i := NewlineIndex(s);
      if 0 < i < |s| && s[i - 1] == '\r' then Some(s[..i - 1]) else Some(s[..i])
  }

  /** `s.lines().next().unwrap_or("")`. */
  function FirstLine(s: string): (line: string)
    ensures '\n' !in line && line <= s
    ensures '\n' !in s ==> line == s
  {
    match FirstLineOpt(s)
    case Some(l) => l
    case None => ""
  }

  /** A line that ends in a line feed, and does not itself end in a carriage return, is read back whole. */
  lemma FirstLineOfTerminated(l: string, rest: string)
    requires '\n' !in l && (l == [] || l[|l| - 1] != '\r')
    ensures FirstLine(l + "\n" + rest) == l
  {
    var s := l + "\n" + rest;
    NewlineIndexAt(s, |l|);
    assert s[..|l|] == l;
  }

  /**
    A line that ends in a carriage return and a line feed is read back
    whole; exactly one carriage return is dropped, so a line of its own
    ending in a carriage return keeps it.
   */
  lemma FirstLineOfCrlfTerminated(l: string, rest: string)
    requires '\n' !in l
    ensures FirstLine(l + "\r\n" + rest) == l
  {
    var s := l + "\r\n" + rest;
    NewlineIndexAt(s, |l| + 1);
    assert s[..|l|] == l;
  }

  /** Text without a line feed in front of `t` moves the first line feed of `t` by its length. */
  lemma {:induction false} NewlineIndexAppend(p: string, t: string)
    requires '\n' !in p
    ensures NewlineIndex(p + t) == |p| + NewlineIndex(t)
  {
    if p != [] {
      assert (p + t)[0] == p[0] && (p + t)[1..] == p[1..] + t;
      NewlineIndexAppend(p[1..], t);
    } else {
      assert p + t == t;
    }
  }

  /**
    A non-empty prefix without a line feed, and not ending in a carriage
    return, is kept in front of the first line of what follows it.
   */
  lemma FirstLineOfPrefixed(p: string, t: string)
    requires p != [] && '\n' !in p && p[|p| - 1] != '\r'
    ensures FirstLine(p + t) == p + FirstLine(t)
  {
    var s := p + t;
    NewlineIndexAppend(p, t);
    var j := NewlineIndex(t);
    var i := NewlineIndex(s);
    assert i == |p| + j;
    if t == [] {
      assert s == p;
    } else if 0 < j && t[j - 1] == '\r' {
      assert s[i - 1] == t[j - 1];
      assert s[..i - 1] == p + t[..j - 1];
    } else {
      assert s[i - 1] == if j == 0 then p[|p| - 1] else t[j - 1];
      assert s[..i] == p + t[..j];
    }
  }

  /** When `s[i]` is the first line feed of `s`, the index of the first line feed is `i`. */
  lemma {:induction false} NewlineIndexAt(s: string, i: nat)
    requires i < |s| && s[i] == '\n'
    requires forall k :: 0 <= k < i ==> s[k] != '\n'
    ensures NewlineIndex(s) == i
  {
  }

  /**
    `s.replace(pat, rep)` for a non-empty pattern: the occurrences of
    `pat` found by scanning from the left, without overlap, are each
    replaced by `rep`; the result is not scanned again.
   */
  function ReplaceAll(s: string, pat: string, rep: string): (r: string)
    requires pat != []
    ensures |rep| <= |pat| ==> |r| <= |s|
    decreases |s|
  {
    if |s| < |pat| then s
    else if s[..|pat|] == pat then rep + ReplaceAll(s[|pat|..], pat, rep)
    else [s[0]] + ReplaceAll(s[1..], pat, rep)
  }

  /** Every character of a replacement's result comes from the text or from the replacement. */
  lemma {:induction false} ReplaceAllChars(s: string, pat: string, rep: string, c: char)
    requires pat != [] && c !in s && c !in rep
    ensures c !in ReplaceAll(s, pat, rep)
    decreases |s|
  {
    if |s| >= |pat| {
      if s[..|pat|] == pat {
        assert forall x :: x in s[|pat|..] ==> x in s;
        ReplaceAllChars(s[|pat|..], pat, rep, c);
      } else {
        assert forall x :: x in s[1..] ==> x in s;
        ReplaceAllChars(s[1..], pat, rep, c);
      }
    }
  }

  /** Replacing one character by another works position by position. */
  lemma {:induction false} ReplaceCharAt(s: string, c: char, d: char)
    ensures |ReplaceAll(s, [c], [d])| == |s|
    ensures forall k :: 0 <= k < |s| ==> ReplaceAll(s, [c], [d])[k] == if s[k] == c then d else s[k]
  {
    if s != [] {
      ReplaceCharAt(s[1..], c, d);
      assert s[..1] == [c] <==> s[0] == c;
    }
  }

  /** A text in which the pattern does not occur is left as it is. */
  lemma {:induction false} ReplaceAbsent(s: string, pat: string, rep: string)
    requires pat != [] && !Contains(s, pat)
    ensures ReplaceAll(s, pat, rep) == s
    decreases |s|
  {
    if |s| >= |pat| {
      assert !OccursAt(s, pat, 0);
      assert !Contains(s[1..], pat) by {
        forall k: nat | k <= |s[1..]| ensures !OccursAt(s[1..], pat, k) {
          assert !OccursAt(s, pat, k + 1);
          if k + |pat| <= |s[1..]| {
            assert s[1..][k..k + |pat|] == s[k + 1..k + 1 + |pat|];
          }
        }
      }
      ReplaceAbsent(s[1..], pat, rep);
      assert [s[0]] + s[1..] == s;
    }
  }

  /** A pattern cannot occur in a text that lacks its first character. */
  lemma AbsentWithoutFirst(s: string, pat: string)
    requires pat != [] && pat[0] !in s
    ensures !Contains(s, pat)
  {
    forall k: nat | k <= |s| ensures !OccursAt(s, pat, k) {
      assert k + |pat| <= |s| ==> s[k..k + |pat|][0] == s[k];
    }
  }

  /** An ASCII capital letter. */
  predicate IsAsciiUpper(c: char)
  {
    'A' <= c <= 'Z'
  }

  /** The lower-case form of an ASCII capital; every other character is its own lower-case form. */
  function LowerChar(c: char): (d: char)
    ensures !IsAsciiUpper(d)
    ensures IsAsciiUpper(c) ==> d as int == c as int + 32
    ensures !IsAsciiUpper(c) ==> d == c
  {
    if IsAsciiUpper(c) then (c as int + 32) as char else c
  }

  /** `s.to_lowercase()` restricted to the ASCII letters. */
  function ToLowerAscii(s: string): (r: string)
    ensures |r| == |s|
    ensures forall k :: 0 <= k < |s| ==> r[k] == LowerChar(s[k])
  {
    seq(|s|, k requires 0 <= k < |s| => LowerChar(s[k]))
  }

  /** Lower-casing introduces no character other than an ASCII small letter. */
  lemma LowerAsciiAddsNothing(s: string, c: char)
    requires !('a' <= c <= 'z') && c !in s
    ensures c !in ToLowerAscii(s)
  {
  }

  /** Lower-casing twice is lower-casing once. */
  lemma LowerAsciiIdempotent(s: string)
    ensures ToLowerAscii(ToLowerAscii(s)) == ToLowerAscii(s)
  {
  }
}
