/** `split_flags`: the splitting of `pkg-config` output into compiler flags. Words
    are separated by spaces, line feeds and carriage returns; a backslash makes the
    byte after it part of the word, whatever that byte is. */
module Flags {
  import opened Base

  const SPACE: byte := 32
  const LINE_FEED: byte := 10
  const CARRIAGE_RETURN: byte := 13
  const BACKSLASH: byte := 92

  predicate IsSeparator(b: byte) {
    b == SPACE || b == LINE_FEED || b == CARRIAGE_RETURN
  }

  /** The words still to come when `rest` is unread, `word` has been gathered so far
      and `escaped` records that the previous byte was an unescaped backslash. */
  function WordsFrom(rest: seq<byte>, word: seq<byte>, escaped: bool): seq<seq<byte>>
    decreases |rest|
  {
    if |rest| == 0 then (if word == [] then [] else [word])
    else if escaped then WordsFrom(rest[1..], word + [rest[0]], false)
    else if rest[0] == BACKSLASH then WordsFrom(rest[1..], word, true)
    else if IsSeparator(rest[0]) then
      (if word == [] then [] else [word]) + WordsFrom(rest[1..], [], false)
    else WordsFrom(rest[1..], word + [rest[0]], false)
  }

  /** The words of a whole output. */
  function Words(output: seq<byte>): seq<seq<byte>> {
    WordsFrom(output, [], false)
  }

  /** The byte loop of `split_flags`, which updates the `word` buffer, the `words`
      vector and the `escaped` flag. */
  method SplitFlags(output: seq<byte>) returns (words: seq<seq<byte>>)
    ensures words == Words(output)
  {
    var word: seq<byte> := [];
    var escaped := false;
    words := [];
    for i := 0 to |output|
      invariant words + WordsFrom(output[i..], word, escaped) == Words(output)
    {
      var b := output[i];
      assert output[i..][1..] == output[i + 1..];
      if escaped {
        escaped := false;
        word := word + [b];
      } else if b == BACKSLASH {
        escaped := true;
      } else if IsSeparator(b) {
        if word != [] {
          words := words + [word];
          word := [];
        }
      } else {
        word := word + [b];
      }
    }
    if word != [] {
      words := words + [word];
    }
  }

  /** `split_flags` never produces an empty word. */
  lemma {:induction false} WordsFromNonEmpty(rest: seq<byte>, word: seq<byte>, escaped: bool)
    ensures forall w :: w in WordsFrom(rest, word, escaped) ==> w != []
    decreases |rest|
  {
    if |rest| > 0 {
      WordsFromNonEmpty(rest[1..], word + [rest[0]], false);
      WordsFromNonEmpty(rest[1..], word, true);
      WordsFromNonEmpty(rest[1..], [], false);
    }
  }

  lemma WordsNonEmpty(output: seq<byte>)
    ensures forall w :: w in Words(output) ==> w != []
  {
    WordsFromNonEmpty(output, [], false);
  }

  /** A word written so that `split_flags` reads it back: every separator and
      every backslash is preceded by a backslash. */
  function Escape(w: seq<byte>): (r: seq<byte>)
    ensures |r| >= |w|
  {
    if |w| == 0 then []
    else (if IsSeparator(w[0]) || w[0] == BACKSLASH then [BACKSLASH, w[0]] else [w[0]])
         + Escape(w[1..])
  }

  predicate AllSeparators(gap: seq<byte>) {
    forall i :: 0 <= i < |gap| ==> IsSeparator(gap[i])
  }

  /** Escaped words with `gap` between consecutive words. */
  function Render(ws: seq<seq<byte>>, gap: seq<byte>): seq<byte> {
    if |ws| == 0 then []
    else if |ws| == 1 then Escape(ws[0])
    else Escape(ws[0]) + gap + Render(ws[1..], gap)
  }

  lemma {:induction false} ReadEscaped(w: seq<byte>, rest: seq<byte>, word: seq<byte>)
    ensures WordsFrom(Escape(w) + rest, word, false) == WordsFrom(rest, word + w, false)
    decreases |w|
  {
    if |w| == 0 {
      assert Escape(w) + rest == rest && word + w == word;
    } else {
      var b := w[0];
      var tail := Escape(w[1..]) + rest;
      ReadEscaped(w[1..], rest, word + [b]);
      assert word + [b] + w[1..] == word + w;
      if IsSeparator(b) || b == BACKSLASH {
        var s := [BACKSLASH, b] + tail;
        assert Escape(w) + rest == s;
        assert s[1..] == [b] + tail;
        assert ([b] + tail)[1..] == tail;
        assert WordsFrom(s, word, false) == WordsFrom([b] + tail, word, true);
      } else {
        var s := [b] + tail;
        assert Escape(w) + rest == s;
        assert s[1..] == tail;
      }
    }
  }

  lemma {:induction false} SkipGap(gap: seq<byte>, rest: seq<byte>)
    requires AllSeparators(gap)
    ensures WordsFrom(gap + rest, [], false) == WordsFrom(rest, [], false)
    decreases |gap|
  {
    if |gap| == 0 {
      assert gap + rest == rest;
    } else {
      var s := gap + rest;
      assert s[0] == gap[0] && IsSeparator(s[0]) && s[0] != BACKSLASH;
      assert s[1..] == gap[1..] + rest;
      SkipGap(gap[1..], rest);
    }
  }

  lemma EndWordAtGap(gap: seq<byte>, rest: seq<byte>, word: seq<byte>)
    requires |gap| > 0 && AllSeparators(gap) && word != []
    ensures WordsFrom(gap + rest, word, false) == [word] + WordsFrom(rest, [], false)
  {
    var s := gap + rest;
    assert s[0] == gap[0] && IsSeparator(s[0]) && s[0] != BACKSLASH;
    assert s[1..] == gap[1..] + rest;
    SkipGap(gap[1..], rest);
  }

  lemma {:induction false} ReadRendered(ws: seq<seq<byte>>, gap: seq<byte>, trail: seq<byte>)
    requires |gap| > 0 && AllSeparators(gap) && AllSeparators(trail)
    requires forall i :: 0 <= i < |ws| ==> ws[i] != []
    ensures WordsFrom(Render(ws, gap) + trail, [], false) == ws
    decreases |ws|
  {
    if |ws| == 0 {
      SkipGap(trail, []);
      assert Render(ws, gap) + trail == trail + [];
    } else if |ws| == 1 {
      ReadEscaped(ws[0], trail, []);
      assert [] + ws[0] == ws[0];
      if |trail| == 0 {
        assert WordsFrom(trail, ws[0], false) == [ws[0]];
      } else {
        EndWordAtGap(trail, [], ws[0]);
        assert trail + [] == trail;
      }
    } else {
      var rest := Render(ws[1..], gap) + trail;
      assert Render(ws, gap) + trail == Escape(ws[0]) + (gap + rest);
      ReadEscaped(ws[0], gap + rest, []);
      assert [] + ws[0] == ws[0];
      EndWordAtGap(gap, rest, ws[0]);
      ReadRendered(ws[1..], gap, trail);
    }
  }

  /** Round trip: non-empty words, escaped and separated by any non-empty run of
      separators, with separators before and after, are split back into exactly
      those words. */
  lemma SplitFlagsRoundTrip(ws: seq<seq<byte>>, lead: seq<byte>, gap: seq<byte>, trail: seq<byte>)
    requires |gap| > 0 && AllSeparators(lead) && AllSeparators(gap) && AllSeparators(trail)
    requires forall i :: 0 <= i < |ws| ==> ws[i] != []
    ensures Words(lead + Render(ws, gap) + trail) == ws
  {
    assert lead + Render(ws, gap) + trail == lead + (Render(ws, gap) + trail);
    SkipGap(lead, Render(ws, gap) + trail);
    ReadRendered(ws, gap, trail);
  }
}
