/** The zone-file TXT parser and the DKIM normaliser of the domain service. */
module TxtRecords {
  import opened Wrappers
  import opened Text

  function Concat(chunks: seq<string>): string {
    if chunks == [] then "" else chunks[0] + Concat(chunks[1..])
  }

  // ---------------------------------------------------------------- zone files

  /** All matches of `"([^"]*)"`, left to right. */
  function QuotedChunks(raw: string): seq<string>
    decreases |raw|
  {
    if '"' !in raw || '"' !in After(raw, '"') then []
    else [Before(After(raw, '"'), '"')] + QuotedChunks(After(After(raw, '"'), '"'))
  }

  function ParseZonefileTxt(raw: string): string {
    Strip(Concat(QuotedChunks(raw)))
  }

  /** A quoted string and the unquoted text that follows it. */
  datatype Piece = Piece(chunk: string, after: string)

  predicate QuoteFree(s: string) {
    '"' !in s
  }

  function Fragment(pieces: seq<Piece>): string {
    if pieces == [] then "" else "\"" + pieces[0].chunk + "\"" + pieces[0].after + Fragment(pieces[1..])
  }

  function Chunks(pieces: seq<Piece>): seq<string> {
    if pieces == [] then [] else [pieces[0].chunk] + Chunks(pieces[1..])
  }

  predicate AllQuoteFree(pieces: seq<Piece>) {
    forall p <- pieces :: QuoteFree(p.chunk) && QuoteFree(p.after)
  }

  lemma FirstChunk(before: string, chunk: string, rest: string)
    requires QuoteFree(before) && QuoteFree(chunk)
    ensures QuotedChunks(before + ['"'] + (chunk + ['"'] + rest)) == [chunk] + QuotedChunks(rest)
  {
    BeforeUnique(before, '"', chunk + ['"'] + rest);
    BeforeUnique(chunk, '"', rest);
  }

  lemma FragmentText(before: string, pieces: seq<Piece>)
    requires pieces != []
    ensures before + Fragment(pieces)
         == before + ['"'] + (pieces[0].chunk + ['"'] + (pieces[0].after + Fragment(pieces[1..])))
  {
  }

  /** The parser finds exactly the quoted chunks, whatever stands between them. */
  lemma {:induction false} FragmentChunks(before: string, pieces: seq<Piece>)
    requires QuoteFree(before) && AllQuoteFree(pieces)
    ensures QuotedChunks(before + Fragment(pieces)) == Chunks(pieces)
    decreases |pieces|
  {
    if pieces == [] {
      assert before + Fragment(pieces) == before;
    } else {
      var p := pieces[0];
      assert p in pieces;
      FragmentText(before, pieces);
      FirstChunk(before, p.chunk, p.after + Fragment(pieces[1..]));
      FragmentChunks(p.after, pieces[1..]);
    }
  }

  /** Round trip: a value cut into quoted chunks at any places, with any unquoted text around them, is read
      back exactly when it has no outer white space; otherwise it is read back stripped. */
  lemma ZonefileRoundTrip(value: string, before: string, pieces: seq<Piece>)
    requires QuoteFree(before) && AllQuoteFree(pieces) && Concat(Chunks(pieces)) == value
    ensures ParseZonefileTxt(before + Fragment(pieces)) == Strip(value)
    ensures ParseZonefileTxt(before + Fragment(pieces)) == value <==>
              value == "" || (!IsSpace(value[0]) && !IsSpace(value[|value| - 1]))
  {
    FragmentChunks(before, pieces);
    StripFixed(value);
  }

  lemma {:induction false} StripShortens(s: string)
    ensures if s == "" || !IsSpace(s[0]) then StripLeft(s) == s else |StripLeft(s)| < |s|
    ensures if s == "" || !IsSpace(s[|s| - 1]) then StripRight(s) == s else |StripRight(s)| < |s|
  {
    if s != "" {
      StripShortens(s[1..]);
      StripShortens(s[..|s| - 1]);
    }
  }

  lemma StripFixed(s: string)
    ensures Strip(s) == s <==> s == "" || (!IsSpace(s[0]) && !IsSpace(s[|s| - 1]))
  {
    StripShortens(s);
    StripShortens(StripLeft(s));
  }

  // ---------------------------------------------------------------- DKIM

  /** `s.partition("p=")`: the text before the first `p=`, whether there is one, and the text after it. */
  datatype Partition = Partition(head: string, found: bool, tail: string)

  function Cut(s: string): Partition {
    if |s| < 2 then Partition(s, false, "")
    else if s[0] == 'p' && s[1] == '=' then Partition("", true, s[2..])
    else
      var rest := Cut(s[1..]);
      rest.(head := [s[0]] + rest.head)
  }

  function Squeeze(s: string): string {
    Concat(Split(s))
  }

  function NormalizeDkimTxt(txt: Option<string>): Option<string> {
    match txt
    case None => None
    case Some(s) =>
      var cut := Cut(s);
      if !cut.found then txt else Some(cut.head + "p=" + Squeeze(cut.tail))
  }

  /** Squeezing keeps the non-blank characters, in order. */
  function NonBlank(s: string): string {
    if s == "" then "" else (if IsSpace(s[0]) then "" else [s[0]]) + NonBlank(s[1..])
  }

  lemma {:induction false} SqueezeWith(word: string, s: string)
    ensures Concat(SplitWith(word, s)) == word + NonBlank(s)
    decreases |s|
  {
    if s == "" {
    } else if IsSpace(s[0]) {
      SqueezeWith("", s[1..]);
      if word == "" {
        assert SplitWith(word, s) == SplitWith("", s[1..]);
      } else {
        assert SplitWith(word, s) == [word] + SplitWith("", s[1..]);
        assert SplitWith(word, s)[1..] == SplitWith("", s[1..]);
      }
    } else {
      SqueezeWith(word + [s[0]], s[1..]);
    }
  }

  lemma SqueezeIsNonBlank(s: string)
    ensures Squeeze(s) == NonBlank(s)
  {
    SqueezeWith("", s);
  }

  lemma {:induction false} NonBlankConcat(a: string, b: string)
    ensures NonBlank(a + b) == NonBlank(a) + NonBlank(b)
  {
    if a == "" {
      assert a + b == b;
    } else {
      assert (a + b)[1..] == a[1..] + b;
      NonBlankConcat(a[1..], b);
    }
  }

  lemma {:induction false} NonBlankFixed(s: string)
    ensures NonBlank(NonBlank(s)) == NonBlank(s)
  {
    if s != "" {
      NonBlankFixed(s[1..]);
      NonBlankConcat(if IsSpace(s[0]) then "" else [s[0]], NonBlank(s[1..]));
    }
  }

  lemma {:induction false} BlankIsDropped(s: string)
    requires forall c <- s :: IsSpace(c)
    ensures NonBlank(s) == ""
  {
    if s != "" {
      assert s[0] in s;
      BlankIsDropped(s[1..]);
    }
  }

  /** The cut is at the first `p=` and nothing after it matters. */
  lemma {:induction false} CutIsFirst(s: string, tail: string)
    requires Cut(s).found
    ensures s == Cut(s).head + "p=" + Cut(s).tail
    ensures Cut(Cut(s).head + "p=" + tail) == Partition(Cut(s).head, true, tail)
  {
    var head := Cut(s).head;
    if s[0] == 'p' && s[1] == '=' {
      assert s == "" + "p=" + s[2..];
      assert (head + "p=" + tail)[2..] == tail;
    } else {
      CutIsFirst(s[1..], tail);
      var t := head + "p=" + tail;
      assert t[1..] == head[1..] + "p=" + tail;
      assert t[1] == if |head| > 1 then head[1] else 'p';
      assert s[1] == if |head| > 1 then head[1] else 'p';
    }
  }

  lemma DkimIdempotent(txt: Option<string>)
    ensures NormalizeDkimTxt(NormalizeDkimTxt(txt)) == NormalizeDkimTxt(txt)
  {
    if txt.Some? && Cut(txt.value).found {
      var cut := Cut(txt.value);
      CutIsFirst(txt.value, Squeeze(cut.tail));
      SqueezeIsNonBlank(cut.tail);
      SqueezeIsNonBlank(Squeeze(cut.tail));
      NonBlankFixed(cut.tail);
    }
  }

  /** White space put anywhere behind the first `p=` makes no difference (the key is base64, section 3.6.2.2 of
      RFC 6376). */
  lemma DkimIgnoresInsertedSpace(s: string, i: nat, blank: string)
    requires Cut(s).found && |Cut(s).head| + 2 <= i <= |s|
    requires forall c <- blank :: IsSpace(c)
    ensures NormalizeDkimTxt(Some(s[..i] + blank + s[i..])) == NormalizeDkimTxt(Some(s))
  {
    var cut := Cut(s);
    InsertedInTail(s, i, blank);
    var j := i - |cut.head| - 2;
    var a, b := cut.tail[..j], cut.tail[j..];
    CutIsFirst(s, a + blank + b);
    SqueezeIsNonBlank(cut.tail);
    SqueezeIsNonBlank(a + blank + b);
    BlankMiddle(a, blank, b);
    assert cut.tail == a + b;
  }

  lemma InsertedInTail(s: string, i: nat, blank: string)
    requires Cut(s).found && |Cut(s).head| + 2 <= i <= |s|
    ensures |s| == |Cut(s).head| + 2 + |Cut(s).tail|
    ensures var cut := Cut(s);
            var j := i - |cut.head| - 2;
            s[..i] + blank + s[i..] == cut.head + "p=" + (cut.tail[..j] + blank + cut.tail[j..])
  {
    var cut := Cut(s);
    CutIsFirst(s, cut.tail);
    var front := cut.head + "p=";
    var j := i - |front|;
    assert s[..i] == front + cut.tail[..j];
    assert s[i..] == cut.tail[j..];
  }

  lemma BlankMiddle(a: string, blank: string, b: string)
    requires forall c <- blank :: IsSpace(c)
    ensures NonBlank(a + blank + b) == NonBlank(a + b)
  {
    NonBlankConcat(a, b);
    NonBlankConcat(a + blank, b);
    NonBlankConcat(a, blank);
    BlankIsDropped(blank);
  }

  /** When two stored values count as the same DKIM record: never across a missing `p=`, and otherwise exactly
      when they agree up to the first `p=` and on the non-blank characters behind it. */
  lemma DkimMatchIff(s: string, t: string)
    ensures NormalizeDkimTxt(Some(s)) == NormalizeDkimTxt(Some(t)) <==>
              if Cut(s).found && Cut(t).found then
                Cut(s).head == Cut(t).head && NonBlank(Cut(s).tail) == NonBlank(Cut(t).tail)
              else s == t
  {
    SqueezeIsNonBlank(Cut(s).tail);
    SqueezeIsNonBlank(Cut(t).tail);
    if Cut(s).found {
      CutIsFirst(s, Squeeze(Cut(s).tail));
    }
    if Cut(t).found {
      CutIsFirst(t, Squeeze(Cut(t).tail));
    }
  }
}
