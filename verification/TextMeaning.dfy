/** What the string operations mean, without reference to how they go through a string. */
module TextMeaning {
  import opened Text
  import opened TxtRecords
  import opened Wrappers

  // ---------------------------------------------------------------- lower case

  predicate SameLetter(a: char, b: char) {
    || a == b
    || ('A' <= a <= 'Z' && b as int == a as int + 32)
    || ('A' <= b <= 'Z' && a as int == b as int + 32)
  }

  /** Two strings have one lower-case form just when they differ in the case of letters only. */
  lemma LowerSameIff(a: string, b: string)
    ensures Lower(a) == Lower(b) <==> |a| == |b| && forall i | 0 <= i < |a| :: SameLetter(a[i], b[i])
  {
    if Lower(a) == Lower(b) {
      forall i | 0 <= i < |a|
        ensures SameLetter(a[i], b[i])
      {
        assert Lower(a)[i] == Lower(b)[i];
      }
    }
  }

  /** Lower-casing leaves no capital, and a string without one alone. */
  lemma LowerFixedIff(s: string)
    ensures Lower(s) == s <==> forall i | 0 <= i < |s| :: !('A' <= s[i] <= 'Z')
    ensures forall i | 0 <= i < |s| :: !('A' <= Lower(s)[i] <= 'Z')
  {
    if Lower(s) == s {
      forall i | 0 <= i < |s|
        ensures !('A' <= s[i] <= 'Z')
      {
        assert Lower(s)[i] == s[i];
      }
    }
  }

  // ---------------------------------------------------------------- words

  /** White space, by code: tab to carriage return, the four separators, and the blank. */
  lemma SpacesAre(c: char)
    ensures IsSpace(c) <==> c as int in {9, 10, 11, 12, 13, 28, 29, 30, 31, 32}
  {
  }

  lemma {:induction false} SplitWithAt(word: string, a: string, c: char, b: string)
    requires IsSpace(c)
    ensures SplitWith(word, a + [c] + b) == SplitWith(word, a) + Split(b)
    decreases |a|
  {
    var s := a + [c] + b;
    if a == "" {
      assert s[1..] == b;
    } else {
      assert s[1..] == a[1..] + [c] + b;
      if IsSpace(a[0]) {
        SplitWithAt("", a[1..], c, b);
        assert Emit(word) + (SplitWith("", a[1..]) + Split(b)) == Emit(word) + SplitWith("", a[1..]) + Split(b);
      } else {
        SplitWithAt(word + [a[0]], a[1..], c, b);
      }
    }
  }

  /** Splitting is cut at any white space, keeps a word whole, and yields nothing for nothing. */
  lemma SplitMeans(a: string, c: char, b: string, word: string)
    requires IsSpace(c) && IsWord(word)
    ensures Split(a + [c] + b) == Split(a) + Split(b) && Split(word) == [word] && Split("") == []
  {
    SplitWithAt("", a, c, b);
    SplitWithWord("", word, "");
    assert word + "" == word && "" + word == word;
  }

  // ---------------------------------------------------------------- stripping

  predicate Blank(s: string) {
    forall c <- s :: IsSpace(c)
  }

  lemma {:induction false} StripLeftMeans(s: string) returns (left: string)
    ensures s == left + StripLeft(s) && Blank(left)
    ensures StripLeft(s) != "" ==> !IsSpace(StripLeft(s)[0])
  {
    left := "";
    if s != "" && IsSpace(s[0]) {
      var rest := StripLeftMeans(s[1..]);
      left := [s[0]] + rest;
      assert s == [s[0]] + s[1..];
    }
  }

  lemma {:induction false} StripRightMeans(s: string) returns (right: string)
    ensures s == StripRight(s) + right && Blank(right)
    ensures StripRight(s) != "" ==> !IsSpace(StripRight(s)[|StripRight(s)| - 1])
  {
    right := "";
    if s != "" && IsSpace(s[|s| - 1]) {
      var rest := StripRightMeans(s[..|s| - 1]);
      right := rest + [s[|s| - 1]];
      assert s == s[..|s| - 1] + [s[|s| - 1]];
    }
  }

  /** Stripping takes blanks off both ends, and all of them. */
  lemma StripMeans(s: string) returns (left: string, right: string)
    ensures s == left + Strip(s) + right && Blank(left) && Blank(right)
    ensures Strip(s) != "" ==> !IsSpace(Strip(s)[0]) && !IsSpace(Strip(s)[|Strip(s)| - 1])
  {
    left := StripLeftMeans(s);
    right := StripRightMeans(StripLeft(s));
    assert Strip(s) != "" ==> Strip(s)[0] == StripLeft(s)[0];
  }

  /** Taking one character off the right end takes off all of them. */
  lemma {:induction false} StripRightCharMeans(s: string, c: char)
    ensures StripRightChar(s, c) <= s && forall i | |StripRightChar(s, c)| <= i < |s| :: s[i] == c
    ensures StripRightChar(s, c) != "" ==> StripRightChar(s, c)[|StripRightChar(s, c)| - 1] != c
  {
    if s != "" && s[|s| - 1] == c {
      StripRightCharMeans(s[..|s| - 1], c);
    }
  }

  // ---------------------------------------------------------------- records

  predicate TagAt(s: string, i: nat) {
    i + 1 < |s| && s[i] == 'p' && s[i + 1] == '='
  }

  /** A DKIM value is cut at its first `p=`, if it has one. */
  lemma {:induction false} CutMeans(s: string)
    ensures Cut(s).found <==> exists i: nat :: TagAt(s, i)
    ensures Cut(s).found ==> TagAt(s, |Cut(s).head|) && forall i: nat | i < |Cut(s).head| :: !TagAt(s, i)
    ensures Cut(s).found ==> Cut(s).head == s[..|Cut(s).head|] && Cut(s).tail == s[|Cut(s).head| + 2..]
  {
    if |s| >= 2 {
      if TagAt(s, 0) {
        assert Cut(s).head == "";
      } else {
        CutMeans(s[1..]);
        assert forall i: nat | i > 0 :: TagAt(s, i) <==> TagAt(s[1..], i - 1);
        if i: nat :| TagAt(s[1..], i) {
          assert TagAt(s, i + 1);
        }
      }
    }
  }

  /** A quote that is not closed starts no chunk. */
  lemma {:induction false} UnclosedIgnored(before: string, pieces: seq<Piece>, rest: string)
    requires QuoteFree(before) && AllQuoteFree(pieces) && QuoteFree(rest)
    ensures QuotedChunks(before + (Fragment(pieces) + ("\"" + rest))) == Chunks(pieces)
    decreases |pieces|
  {
    var raw := before + (Fragment(pieces) + ("\"" + rest));
    if pieces == [] {
      assert raw == before + ['"'] + rest;
      BeforeUnique(before, '"', rest);
    } else {
      var p := pieces[0];
      assert p in pieces;
      assert raw == before + ['"'] + (p.chunk + ['"'] + (p.after + (Fragment(pieces[1..]) + ("\"" + rest))));
      FirstChunk(before, p.chunk, p.after + (Fragment(pieces[1..]) + ("\"" + rest)));
      UnclosedIgnored(p.after, pieces[1..], rest);
    }
  }
}
