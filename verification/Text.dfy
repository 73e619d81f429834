/** The string operations the modelled code relies on, over ASCII: `split`, `join`, `strip`, `lower`,
    `partition`, and membership of characters. */
module Text {

  predicate IsSpace(c: char) {
    c == ' ' || 9 <= c as int <= 13 || 28 <= c as int <= 31
  }

  function LowerChar(c: char): char {
    if 'A' <= c <= 'Z' then (c as int + 32) as char else c
  }

  function Lower(s: string): (r: string)
    ensures |r| == |s|
    ensures forall i | 0 <= i < |s| :: r[i] == LowerChar(s[i])
  {
    seq(|s|, i requires 0 <= i < |s| => LowerChar(s[i]))
  }

  lemma LowerConcat(a: string, b: string)
    ensures Lower(a + b) == Lower(a) + Lower(b)
  {
  }

  lemma LowerIdempotent(s: string)
    ensures Lower(Lower(s)) == Lower(s)
  {
  }

  /** A non-empty string without white space: what `split` yields. */
  predicate IsWord(w: string) {
    w != "" && forall c <- w :: !IsSpace(c)
  }

  predicate AllWords(ws: seq<string>) {
    forall w <- ws :: IsWord(w)
  }

  /** Splitting on runs of white space, with the word read so far as an accumulator. */
  function SplitWith(word: string, s: string): seq<string>
    decreases |s|
  {
    if s == "" then Emit(word)
    else if IsSpace(s[0]) then Emit(word) + SplitWith("", s[1..])
    else SplitWith(word + [s[0]], s[1..])
  }

  function Emit(word: string): seq<string> {
    if word == "" then [] else [word]
  }

  function Split(s: string): seq<string> {
    SplitWith("", s)
  }

  function Join(ws: seq<string>): string {
    if ws == [] then "" else if |ws| == 1 then ws[0] else ws[0] + " " + Join(ws[1..])
  }

  lemma {:induction false} SplitWithWords(word: string, s: string)
    requires forall c <- word :: !IsSpace(c)
    ensures AllWords(SplitWith(word, s))
    decreases |s|
  {
    if s != "" {
      if IsSpace(s[0]) {
        SplitWithWords("", s[1..]);
      } else {
        SplitWithWords(word + [s[0]], s[1..]);
      }
    }
  }

  lemma SplitWords(s: string)
    ensures AllWords(Split(s))
  {
    SplitWithWords("", s);
  }

  lemma {:induction false} SplitWithWord(word: string, w: string, s: string)
    requires forall c <- w :: !IsSpace(c)
    ensures SplitWith(word, w + s) == SplitWith(word + w, s)
    decreases |w|
  {
    if w == "" {
      assert word + w == word && w + s == s;
    } else {
      assert (w + s)[1..] == w[1..] + s;
      assert word + w == word + [w[0]] + w[1..];
      assert w[0] in w;
      SplitWithWord(word + [w[0]], w[1..], s);
    }
  }

  /** Joining words with single spaces and splitting again gives the words back. */
  lemma {:induction false} SplitJoin(ws: seq<string>)
    requires AllWords(ws)
    ensures Split(Join(ws)) == ws
  {
    if ws != [] {
      var rest := if |ws| == 1 then "" else " " + Join(ws[1..]);
      assert Join(ws) == ws[0] + rest;
      assert ws[0] in ws;
      SplitWithWord("", ws[0], rest);
      assert "" + ws[0] == ws[0];
      if |ws| > 1 {
        SplitJoin(ws[1..]);
        assert rest[1..] == Join(ws[1..]);
        assert Split(Join(ws)) == [ws[0]] + ws[1..];
      }
    }
  }

  function StripLeft(s: string): string {
    if s != "" && IsSpace(s[0]) then StripLeft(s[1..]) else s
  }

  function StripRight(s: string): string {
    if s != "" && IsSpace(s[|s| - 1]) then StripRight(s[..|s| - 1]) else s
  }

  function Strip(s: string): string {
    StripRight(StripLeft(s))
  }

  lemma {:induction false} SplitStripLeft(s: string)
    ensures Split(StripLeft(s)) == Split(s)
  {
    if s != "" && IsSpace(s[0]) {
      SplitStripLeft(s[1..]);
    }
  }

  lemma {:induction false} SplitWithTrailing(word: string, s: string, c: char)
    requires IsSpace(c)
    ensures SplitWith(word, s + [c]) == SplitWith(word, s)
    decreases |s|
  {
    if s == "" {
      assert (s + [c])[1..] == "";
    } else {
      assert (s + [c])[1..] == s[1..] + [c];
      SplitWithTrailing("", s[1..], c);
      SplitWithTrailing(word + [s[0]], s[1..], c);
    }
  }

  lemma {:induction false} SplitStripRight(s: string)
    ensures Split(StripRight(s)) == Split(s)
  {
    if s != "" && IsSpace(s[|s| - 1]) {
      assert s == s[..|s| - 1] + [s[|s| - 1]];
      SplitWithTrailing("", s[..|s| - 1], s[|s| - 1]);
      SplitStripRight(s[..|s| - 1]);
    }
  }

  /** `s.strip().split()` is `s.split()`. */
  lemma SplitStrip(s: string)
    ensures Split(Strip(s)) == Split(s)
  {
    SplitStripLeft(s);
    SplitStripRight(StripLeft(s));
  }

  predicate StartsWith(s: string, prefix: string) {
    prefix <= s
  }

  /** `s.split(c, 1)[0]`. */
  function Before(s: string, c: char): (r: string)
    ensures r <= s && c !in r
    ensures c !in s ==> r == s
    ensures c in s ==> |r| < |s| && s[|r|] == c
  {
    if s == "" || s[0] == c then "" else [s[0]] + Before(s[1..], c)
  }

  /** `s.split(c, 1)[1]`, for a string that contains `c`. */
  function After(s: string, c: char): (r: string)
    requires c in s
    ensures s == Before(s, c) + [c] + r
  {
    s[|Before(s, c)| + 1..]
  }

  lemma {:induction false} BeforeUnique(a: string, c: char, b: string)
    requires c !in a
    ensures Before(a + [c] + b, c) == a
    ensures After(a + [c] + b, c) == b
  {
    if a == "" {
      assert a + [c] + b == [c] + b;
    } else {
      BeforeUnique(a[1..], c, b);
      assert (a + [c] + b)[1..] == a[1..] + [c] + b;
      assert a[0] in a;
    }
  }

  /** `s.rstrip(c)` for one character. */
  function StripRightChar(s: string, c: char): string {
    if s != "" && s[|s| - 1] == c then StripRightChar(s[..|s| - 1], c) else s
  }
}
