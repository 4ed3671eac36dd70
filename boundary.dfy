/**
 * `ContentProcessor._adjust_chunk_boundary`
 * (services/api/content_processor.py): snap a chunk's text back to the
 * last sentence ending found near its end.
 */
module Boundary {
  import opened PyStr

  /** Texts shorter than this are returned unchanged. */
  const MinAdjustLength: nat := 50
  /** How many trailing characters are searched for a sentence ending. */
  const LookBack: nat := 100
  /** A split position must lie strictly after this index of the searched tail. */
  const MinSplitPos: nat := 20

  /** The endings searched for, in the order the source tries them. */
  const SentenceEndings: seq<string> := [".", "!", "?", "\n\n"]

  /** One of the sentence endings starts at index `j` of `last`. */
  predicate EndingAt(last: string, j: int) {
    OccursAt(last, ".", j) || OccursAt(last, "!", j) || OccursAt(last, "?", j) || OccursAt(last, "\n\n", j)
  }

  /** Some ending of `es` starts at index `j` of `last`. */
  predicate EndingOfAt(last: string, es: seq<string>, j: int) {
    exists e :: e in es && OccursAt(last, e, j)
  }

  /** The best split over the endings `es`: the largest `rfind` position beyond `MinSplitPos`, or -1. */
  function BestOver(last: string, es: seq<string>): (b: int)
    ensures b == -1 || MinSplitPos < b <= |last|
  {
    if es == [] then -1
    else
      var b := BestOver(last, es[..|es| - 1]);
      var pos := RFind(last, es[|es| - 1]);
      if pos > MinSplitPos then (if b < pos then pos else b) else b
  }

  /** `best_split` for the searched tail `last`: -1, or an index past 20 at which a sentence ending starts. */
  function BestSplit(last: string): (b: int)
    ensures b == -1 || MinSplitPos < b < |last|
  {
    BestOverRightmost(last, SentenceEndings);
    assert forall e :: e in SentenceEndings ==> |e| >= 1;
    BestOver(last, SentenceEndings)
  }

  /** `BestOver` is the rightmost start, beyond `MinSplitPos`, of any ending in `es`. */
  lemma {:induction false} BestOverRightmost(last: string, es: seq<string>)
    ensures var b := BestOver(last, es);
      b == -1 || (MinSplitPos < b && EndingOfAt(last, es, b))
    ensures forall j :: MinSplitPos < j && EndingOfAt(last, es, j) ==> j <= BestOver(last, es)
  {
    if es != [] {
      var init, e := es[..|es| - 1], es[|es| - 1];
      assert es == init + [e];
      BestOverRightmost(last, init);
      var b := BestOver(last, init);
      var pos := RFind(last, e);
      assert BestOver(last, es) == (if pos > MinSplitPos then (if b < pos then pos else b) else b);
      if b != -1 {
        var e' :| e' in init && OccursAt(last, e', b);
        assert e' in es;
      }
      if pos > MinSplitPos {
        assert e in es;
      }
      forall j | MinSplitPos < j && EndingOfAt(last, es, j) ensures j <= BestOver(last, es) {
        var e' :| e' in es && OccursAt(last, e', j);
        if e' != e {
          assert e' in init;
          assert EndingOfAt(last, init, j);
        } else {
          assert j <= pos;
        }
      }
    }
  }

  /** `best_split` is -1 when no ending starts beyond index 20 of the tail, and otherwise the rightmost such start. */
  lemma {:induction false} BestSplitRightmost(last: string)
    ensures var b := BestSplit(last);
      (b == -1 || (MinSplitPos < b < |last| && EndingAt(last, b)))
      && forall j :: MinSplitPos < j && EndingAt(last, j) ==> j <= b
  {
    BestOverRightmost(last, SentenceEndings);
    var b := BestSplit(last);
    forall j | EndingAt(last, j) ensures EndingOfAt(last, SentenceEndings, j) {
      if OccursAt(last, ".", j) { assert "." in SentenceEndings; }
      else if OccursAt(last, "!", j) { assert "!" in SentenceEndings; }
      else if OccursAt(last, "?", j) { assert "?" in SentenceEndings; }
      else { assert "\n\n" in SentenceEndings; }
    }
    if b != -1 {
      var e :| e in SentenceEndings && OccursAt(last, e, b);
      assert e == "." || e == "!" || e == "?" || e == "\n\n";
    }
  }

  /** `text[-100:]`: the tail searched for a sentence ending. */
  function Tail(text: string): (t: string)
    ensures |text| <= LookBack ==> t == text
    ensures |text| >= LookBack ==> t == text[|text| - LookBack..]
  {
    Slice(text, -(LookBack as int), |text|)
  }

  /** The result once `best_split` is known to be `b`: cut after it when positive, and strip. */
  function CutAt(text: string, b: int): (r: string)
    ensures |r| <= |text|
    ensures r != [] ==> !IsSpace(r[0]) && !IsSpace(r[|r| - 1])
  {
    var kept := if b > 0 then Slice(text, 0, |text| - LookBack + b + 1) else text;
    StripSpec(kept);
    Strip(kept)
  }

  /** What `_adjust_chunk_boundary(text)` returns. */
  function SnapBoundary(text: string): (r: string)
    ensures |text| < MinAdjustLength ==> r == text
    ensures |text| >= MinAdjustLength ==> |r| <= |text| && (r != [] ==> !IsSpace(r[0]) && !IsSpace(r[|r| - 1]))
  {
    if |text| < MinAdjustLength then text else CutAt(text, BestSplit(Tail(text)))
  }

  /** The loop of `_adjust_chunk_boundary`: keep the rightmost `rfind` position beyond index 20 over the four endings. */
  method FindBestSplit(lastPart: string) returns (bestSplit: int)
    ensures bestSplit == BestSplit(lastPart)
  {
    bestSplit := -1;
    for k := 0 to |SentenceEndings|
      invariant bestSplit == BestOver(lastPart, SentenceEndings[..k])
    {
      var ending := SentenceEndings[k];
      assert SentenceEndings[..k + 1][..k] == SentenceEndings[..k];
      var pos := RFind(lastPart, ending);
      if pos > MinSplitPos {
        bestSplit := if bestSplit < pos then pos else bestSplit;
      }
    }
    assert SentenceEndings[..|SentenceEndings|] == SentenceEndings;
  }

  /** `_adjust_chunk_boundary(text)`. */
  method AdjustChunkBoundary(text: string) returns (r: string)
    ensures r == SnapBoundary(text)
  {
    if |text| < MinAdjustLength {
      return text;
    }
    var lastPart := Tail(text);
    var bestSplit := FindBestSplit(lastPart);
    SnapAt(text, bestSplit);
    if bestSplit > 0 {
      r := Strip(Slice(text, 0, |text| - LookBack + bestSplit + 1));
    } else {
      r := Strip(text);
    }
  }

  /** Once `best_split` is known, the result is the cut at it. */
  lemma SnapAt(text: string, b: int)
    requires |text| >= MinAdjustLength && b == BestSplit(Tail(text))
    ensures b > 0 ==> SnapBoundary(text) == Strip(Slice(text, 0, |text| - LookBack + b + 1))
    ensures b <= 0 ==> SnapBoundary(text) == Strip(text)
  {
    assert SnapBoundary(text) == CutAt(text, b);
    if b > 0 {
      assert CutAt(text, b) == Strip(Slice(text, 0, |text| - LookBack + b + 1));
    } else {
      assert CutAt(text, b) == Strip(text);
    }
  }

  /** A text shorter than 50 characters is returned unchanged. */
  lemma {:induction false} SnapShortUnchanged(text: string)
    requires |text| < MinAdjustLength
    ensures SnapBoundary(text) == text
  {
  }

  /** Without a sentence ending beyond index 20 of the last 100 characters, the text is only stripped. */
  lemma {:induction false} SnapWithoutEnding(text: string)
    requires |text| >= MinAdjustLength
    requires var last := Tail(text);
      forall j :: MinSplitPos < j ==> !EndingAt(last, j)
    ensures SnapBoundary(text) == Strip(text)
  {
    BestSplitRightmost(Tail(text));
  }

  /**
   * For a text of at least 100 characters whose last 100 characters hold a
   * sentence ending beyond their index 20, the result is the stripped prefix
   * that ends right after the rightmost such ending's first character.
   */
  lemma {:induction false} SnapLongCutsAfterEnding(text: string, j: int)
    requires |text| >= LookBack
    requires MinSplitPos < j && EndingAt(text[|text| - LookBack..], j)
    ensures var last := text[|text| - LookBack..];
      var b := BestSplit(last);
      && j <= b < LookBack && EndingAt(last, b)
      && (forall j' :: b < j' ==> !EndingAt(last, j'))
      && text[|text| - LookBack + b] in {'.', '!', '?', '\n'}
      && SnapBoundary(text) == Strip(text[..|text| - LookBack + b + 1])
  {
    var last := text[|text| - LookBack..];
    assert Tail(text) == last;
    BestSplitRightmost(last);
    var b := BestSplit(last);
    assert last[b] == text[|text| - LookBack + b];
  }

  /** The length of the prefix `text[:len(text) - 100 + b + 1]` keeps, for a text shorter than 100 characters. */
  function KeptLength(n: nat, b: int): int {
    var x := n - LookBack + b + 1;
    if x >= 0 then x else n + x
  }

  lemma {:induction false} MediumSlice(text: string, b: int)
    requires MinAdjustLength <= |text| < LookBack && 0 < b < |text|
    ensures 0 <= KeptLength(|text|, b) <= |text|
    ensures Slice(text, 0, |text| - LookBack + b + 1) == text[..KeptLength(|text|, b)]
  {
  }

  /**
   * For 50 <= len(text) < 100 the searched tail is the whole text, but the
   * cut index still subtracts 100: the prefix kept misses the ending at `b`
   * by `100 - len(text)` characters when the index is not negative, and is
   * resolved from the end when it is.
   */
  lemma {:induction false} SnapMediumMisplacesCut(text: string)
    requires MinAdjustLength <= |text| < LookBack
    requires BestSplit(text) > 0
    ensures EndingAt(text, BestSplit(text))
    ensures var b := BestSplit(text);
      var k := KeptLength(|text|, b);
      && 0 <= k <= |text|
      && (|text| - LookBack + b + 1 >= 0 ==> k == b + 1 - (LookBack - |text|))
      && (|text| - LookBack + b + 1 < 0 ==> k == b + 1 + (2 * |text| - LookBack) && k >= b + 1)
      && SnapBoundary(text) == Strip(text[..k])
  {
    assert Tail(text) == text;
    BestSplitRightmost(text);
    var b := BestSplit(text);
    SnapAt(text, b);
    MediumSlice(text, b);
  }

  /** No sentence ending starts on the letter 'a'. */
  lemma NoEndingAtLetter(text: string, j: int)
    requires 0 <= j < |text| && text[j] == 'a'
    ensures !EndingAt(text, j)
  {
    forall e | e in SentenceEndings ensures !OccursAt(text, e, j) {
      OccursAtHead(text, e, j);
    }
  }

  /**
   * A 60-character text whose only sentence ending is a '.' at index 39
   * comes back empty: the cut index is 60 - 100 + 39 + 1 = 0.
   */
  lemma {:induction false} SnapCanEraseText()
    ensures var text := seq(39, _ => 'a') + "." + seq(20, _ => 'a');
      |text| == 60 && EndingAt(text, 39) && SnapBoundary(text) == ""
  {
    var text := seq(39, _ => 'a') + "." + seq(20, _ => 'a');
    assert text[39..40] == ".";
    assert OccursAt(text, ".", 39);
    forall j | 39 < j ensures !EndingAt(text, j) {
      if j < |text| {
        NoEndingAtLetter(text, j);
      }
    }
    assert EndingAt(text, 39);
    BestSplitRightmost(text);
    assert BestSplit(text) == 39;
    SnapMediumMisplacesCut(text);
  }
}
