/**
 * The parts of Python's `str` and sequence semantics that the retrieval
 * pipeline relies on: slicing with negative and out-of-range indices,
 * `strip()`, `split()`, `lower()`, `count()` and `rfind()`.
 */
module PyStr {

  /**
   * `str.isspace()` for one character: the code points CPython treats as
   * whitespace in `strip()` and `split()` (ranges include both bounds).
   */
  predicate IsSpace(c: char) {
    var n := c as int;
    || 0x09 <= n <= 0x0D || 0x1C <= n <= 0x20 || n == 0x85 || n == 0xA0 || n == 0x1680
    || 0x2000 <= n <= 0x200A || 0x2028 <= n <= 0x2029 || n == 0x202F || n == 0x205F || n == 0x3000
  }

  predicate AllSpace(s: string) {
    forall i :: 0 <= i < |s| ==> IsSpace(s[i])
  }

  predicate NoSpace(s: string) {
    forall i :: 0 <= i < |s| ==> !IsSpace(s[i])
  }

  /** Whitespace runs joined are a whitespace run. */
  lemma AllSpaceJoin(a: string, b: string)
    requires AllSpace(a) && AllSpace(b)
    ensures AllSpace(a + b)
  {
    forall i | 0 <= i < |a + b| ensures IsSpace((a + b)[i]) {
      if i < |a| {
        assert (a + b)[i] == a[i];
      } else {
        assert (a + b)[i] == b[i - |a|];
      }
    }
  }

  // ---------------------------------------------------------------------
  // Slicing

  /** How Python resolves a slice bound `i` against a sequence of length `n`. */
  function SliceBound(i: int, n: nat): (k: nat)
    ensures k <= n
    ensures 0 <= i <= n ==> k == i
    ensures i < 0 && -i <= n ==> k == n + i
  {
    if i < 0 then (if n + i < 0 then 0 else n + i)
    else if i > n then n
    else i
  }

  /** `s[lo:hi]` with Python's semantics: negative bounds count from the end, bounds are clamped, an inverted range is empty. */
  function Slice<T>(s: seq<T>, lo: int, hi: int): (r: seq<T>)
    ensures |r| <= |s|
    ensures 0 <= lo <= hi ==> r == s[if lo <= |s| then lo else |s|..if hi <= |s| then hi else |s|]
    ensures lo < 0 && -lo <= |s| && |s| <= hi ==> r == s[|s| + lo..]
    ensures lo < 0 && |s| < -lo && |s| <= hi ==> r == s
    ensures lo == 0 && hi < 0 ==> r == s[..SliceBound(hi, |s|)]
  {
    var a, b := SliceBound(lo, |s|), SliceBound(hi, |s|);
    if a <= b then s[a..b] else []
  }

  // ---------------------------------------------------------------------
  // strip()

  /** `s.lstrip()`: drops leading whitespace. */
  function LStrip(s: string): (r: string)
    ensures |r| <= |s| && r == s[|s| - |r|..]
    ensures AllSpace(s[..|s| - |r|])
    ensures r == [] || !IsSpace(r[0])
  {
    if s == [] || !IsSpace(s[0]) then s
    else
      var r := LStrip(s[1..]);
      AllSpaceJoin([s[0]], s[1..][..|s| - 1 - |r|]);
      assert s[..|s| - |r|] == [s[0]] + s[1..][..|s| - 1 - |r|];
      r
  }

  /** `s.rstrip()`: drops trailing whitespace. */
  function RStrip(s: string): (r: string)
    ensures |r| <= |s| && r == s[..|r|]
    ensures AllSpace(s[|r|..])
    ensures r == [] || !IsSpace(r[|r| - 1])
  {
    if s == [] || !IsSpace(s[|s| - 1]) then s
    else
      var r := RStrip(s[..|s| - 1]);
      AllSpaceJoin(s[..|s| - 1][|r|..], [s[|s| - 1]]);
      assert s[|r|..] == s[..|s| - 1][|r|..] + [s[|s| - 1]];
      r
  }

  /** `s.strip()`: the part of `s` between its leading and its trailing whitespace. */
  function Strip(s: string): (r: string)
    ensures |r| <= |s|
  {
    RStrip(LStrip(s))
  }

  /**
   * `strip()` is empty exactly when `s` is all whitespace; otherwise it is
   * the slice of `s` between a whitespace prefix and a whitespace suffix,
   * and starts and ends with a non-whitespace character.
   */
  lemma StripSpec(s: string)
    ensures |Strip(s)| <= |s|
    ensures Strip(s) == [] <==> AllSpace(s)
    ensures Strip(s) != [] ==> !IsSpace(Strip(s)[0]) && !IsSpace(Strip(s)[|Strip(s)| - 1])
    ensures Between(s, |s| - |LStrip(s)|, Strip(s))
  {
    LStripIs(s);
    StripIs(s);
    StripFacts(s, LStrip(s), Strip(s));
  }

  /** What `rstrip()` leaves of what `lstrip()` leaves, stated about `t` and `r` given as values. */
  lemma StripFacts(s: string, t: string, r: string)
    requires LStripped(s, t) && RStripped(t, r)
    ensures |r| <= |s|
    ensures r == [] <==> AllSpace(s)
    ensures r != [] ==> !IsSpace(r[0]) && !IsSpace(r[|r| - 1])
    ensures Between(s, |s| - |t|, r)
  {
    StripSlice(s, t, r);
    StripAllSpace(s, t, r);
    StripEnds(t, r);
  }

  /** `t` is what `lstrip()` leaves of `s`: a suffix after a whitespace run, empty or starting on a non-whitespace character. */
  predicate LStripped(s: string, t: string) {
    |t| <= |s| && t == s[|s| - |t|..] && AllSpace(s[..|s| - |t|]) && (t == [] || !IsSpace(t[0]))
  }

  /** `r` is what `rstrip()` leaves of `t`: a prefix before a whitespace run, empty or ending on a non-whitespace character. */
  predicate RStripped(t: string, r: string) {
    |r| <= |t| && r == t[..|r|] && AllSpace(t[|r|..]) && (r == [] || !IsSpace(r[|r| - 1]))
  }

  lemma LStripIs(s: string)
    ensures LStripped(s, LStrip(s))
  {
  }

  lemma StripIs(s: string)
    ensures RStripped(LStrip(s), Strip(s))
  {
    assert Strip(s) == RStrip(LStrip(s));
  }

  /** A prefix of `t` that starts where `t` does and ends on a non-whitespace character has both ends non-whitespace. */
  lemma StripEnds(t: string, r: string)
    requires (t == [] || !IsSpace(t[0])) && RStripped(t, r)
    ensures r != [] ==> !IsSpace(r[0]) && !IsSpace(r[|r| - 1])
  {
    if r != [] {
      assert r[0] == t[0];
    }
  }

  /** `r` is the slice of `s` from `k` on, with only whitespace before it and after it. */
  predicate Between(s: string, k: int, r: string) {
    0 <= k && k + |r| <= |s| && r == s[k..][..|r|] && AllSpace(s[..k]) && AllSpace(s[k + |r|..])
  }

  /** The part `r` kept of the part `t` kept of `s` is a slice of `s` between two whitespace runs. */
  lemma StripSlice(s: string, t: string, r: string)
    requires LStripped(s, t) && RStripped(t, r)
    ensures Between(s, |s| - |t|, r)
  {
    var k := |s| - |t|;
    assert s[k + |r|..] == t[|r|..];
  }

  /** Nothing is kept exactly when `s` is all whitespace. */
  lemma StripAllSpace(s: string, t: string, r: string)
    requires LStripped(s, t) && RStripped(t, r)
    ensures r == [] <==> AllSpace(s)
  {
    var k := |s| - |t|;
    if r == [] {
      assert t[|r|..] == t;
      assert s[..k] == s;
    } else {
      assert s[k] == t[0] == r[0];
    }
  }

  // ---------------------------------------------------------------------
  // lower()

  /** Lower-cases the ASCII letters; every other character is kept. */
  function LowerChar(c: char): (d: char)
    ensures !('A' <= d <= 'Z')
    ensures 'A' <= c <= 'Z' ==> d as int == c as int + 32
    ensures !('A' <= c <= 'Z') ==> d == c
  {
    if 'A' <= c <= 'Z' then (c as int + 32) as char else c
  }

  /** `s.lower()`, restricted to ASCII case mapping. */
  function Lower(s: string): (r: string)
    ensures |r| == |s|
    ensures forall i :: 0 <= i < |s| ==> r[i] == LowerChar(s[i])
  {
    if s == [] then [] else [LowerChar(s[0])] + Lower(s[1..])
  }

  // ---------------------------------------------------------------------
  // split()

  /** The characters of `s` that are not whitespace, in order. */
  function NonSpace(s: string): string {
    if s == [] then []
    else if IsSpace(s[0]) then NonSpace(s[1..])
    else [s[0]] + NonSpace(s[1..])
  }

  lemma {:induction false} NonSpaceAppend(a: string, b: string)
    ensures NonSpace(a + b) == NonSpace(a) + NonSpace(b)
  {
    if a != [] {
      assert (a + b)[1..] == a[1..] + b;
      NonSpaceAppend(a[1..], b);
    } else {
      assert a + b == b;
    }
  }

  lemma {:induction false} NonSpaceOfAllSpace(s: string)
    requires AllSpace(s)
    ensures NonSpace(s) == []
  {
    if s != [] {
      NonSpaceOfAllSpace(s[1..]);
    }
  }

  lemma {:induction false} NonSpaceOfNoSpace(s: string)
    requires NoSpace(s)
    ensures NonSpace(s) == s
  {
    if s != [] {
      NonSpaceOfNoSpace(s[1..]);
    }
  }

  /** The longest prefix of `s` without whitespace. */
  function TakeWord(s: string): (w: string)
    ensures |w| <= |s| && w == s[..|w|] && NoSpace(w)
    ensures |w| < |s| ==> IsSpace(s[|w|])
    ensures s != [] && !IsSpace(s[0]) ==> w != []
  {
    if s == [] || IsSpace(s[0]) then []
    else [s[0]] + TakeWord(s[1..])
  }

  function Concat(ws: seq<string>): string {
    if ws == [] then [] else ws[0] + Concat(ws[1..])
  }

  /** Every word is non-empty and free of whitespace. */
  predicate Words(ws: seq<string>) {
    forall i :: 0 <= i < |ws| ==> ws[i] != [] && NoSpace(ws[i])
  }

  lemma WordsCons(w: string, ws: seq<string>)
    requires w != [] && NoSpace(w) && Words(ws)
    ensures Words([w] + ws)
  {
    assert forall i :: 1 <= i <= |ws| ==> ([w] + ws)[i] == ws[i - 1];
  }

  /**
   * `s.split()` with no separator: the maximal runs of non-whitespace.
   * Every word is non-empty and free of whitespace.
   */
  function Split(s: string): (ws: seq<string>)
    ensures Words(ws)
    decreases |s|
  {
    var t := LStrip(s);
    if t == [] then []
    else
      var w := TakeWord(t);
      var ws := Split(t[|w|..]);
      WordsCons(w, ws);
      [w] + ws
  }

  /** Leading whitespace contributes no non-whitespace character. */
  lemma {:induction false} NonSpaceOfLStrip(s: string)
    ensures NonSpace(LStrip(s)) == NonSpace(s)
  {
    var t := LStrip(s);
    var lead := s[..|s| - |t|];
    assert s == lead + t;
    NonSpaceAppend(lead, t);
    NonSpaceOfAllSpace(lead);
  }

  /** A word followed by the rest: the word's characters come first. */
  lemma {:induction false} NonSpaceOfWord(t: string)
    ensures NonSpace(t) == TakeWord(t) + NonSpace(t[|TakeWord(t)|..])
  {
    var w := TakeWord(t);
    assert t == w + t[|w|..];
    NonSpaceAppend(w, t[|w|..]);
    NonSpaceOfNoSpace(w);
  }

  lemma {:induction false} ConcatCons(w: string, ws: seq<string>)
    ensures Concat([w] + ws) == w + Concat(ws)
  {
    assert ([w] + ws)[1..] == ws;
  }

  /** Splitting loses only whitespace: the words hold exactly the non-whitespace characters of `s`, in order. */
  lemma {:induction false} SplitKeepsNonSpace(s: string)
    ensures Concat(Split(s)) == NonSpace(s)
    decreases |s|
  {
    var t := LStrip(s);
    NonSpaceOfLStrip(s);
    if t != [] {
      var w := TakeWord(t);
      var rest := t[|w|..];
      NonSpaceOfWord(t);
      SplitKeepsNonSpace(rest);
      assert Split(s) == [w] + Split(rest);
      ConcatCons(w, Split(rest));
    }
  }

  /** `w` occurs in `s` at `p` as a whole word: preceded and followed by whitespace or an end of `s`. */
  predicate WordAt(s: string, w: string, p: int) {
    && 0 <= p && p + |w| <= |s| && s[p..][..|w|] == w
    && (p == 0 || IsSpace(s[p - 1]))
    && (p + |w| == |s| || IsSpace(s[p + |w|]))
  }

  /** A whole word of a suffix `u` of `s` is a whole word of `s`, unless it starts `u` right after a cut through a word. */
  lemma WordAtShift(s: string, u: string, w: string, p: int)
    requires |u| <= |s| && u == s[|s| - |u|..] && WordAt(u, w, p)
    requires p > 0 || |u| == |s| || IsSpace(s[|s| - |u| - 1])
    ensures WordAt(s, w, |s| - |u| + p)
  {
    var off := |s| - |u|;
    assert u[p..p + |w|] == s[off + p..off + p + |w|];
    if p > 0 {
      assert u[p - 1] == s[off + p - 1];
    }
    if p + |w| < |u| {
      assert u[p + |w|] == s[off + p + |w|];
    }
  }

  /** A whole word of what follows whitespace at index `n` of `t` is a whole word of `t`. */
  lemma WordAfterSpace(t: string, n: nat, v: string, p: int)
    requires n <= |t| && (n < |t| ==> IsSpace(t[n]))
    requires WordAt(t[n..], v, p) && v != [] && !IsSpace(v[0])
    ensures p > 0 && WordAt(t, v, n + p)
  {
    var rest := t[n..];
    assert rest[p] == v[0];
    assert rest[0] == t[n];
    assert rest == t[|t| - |rest|..];
    WordAtShift(t, rest, v, p);
  }

  /** The first word of `split()` is a whole word of the text. */
  lemma FirstWordWhole(s: string, t: string, w: string)
    requires t == LStrip(s) && w == TakeWord(t)
    ensures WordAt(s, w, |s| - |t|)
  {
    LStripIs(s);
    WordAfterPrefix(s, t, w);
  }

  /** A word at the front of a suffix `t` of `s` that follows only whitespace is a whole word of `s`. */
  lemma WordAfterPrefix(s: string, t: string, w: string)
    requires LStripped(s, t)
    requires |w| <= |t| && w == t[..|w|] && (|w| < |t| ==> IsSpace(t[|w|]))
    ensures WordAt(s, w, |s| - |t|)
  {
    SpaceBeforeSuffix(s, t);
    WordAtFront(t, w);
    WordAtShift(s, t, w, 0);
  }

  lemma WordAtFront(t: string, w: string)
    requires |w| <= |t| && w == t[..|w|] && (|w| < |t| ==> IsSpace(t[|w|]))
    ensures WordAt(t, w, 0)
  {
  }

  /** The character before a suffix left by `lstrip` is whitespace. */
  lemma SpaceBeforeSuffix(s: string, t: string)
    requires |t| <= |s| && AllSpace(s[..|s| - |t|])
    ensures |t| == |s| || IsSpace(s[|s| - |t| - 1])
  {
    var off := |s| - |t|;
    if off > 0 {
      assert s[..off][off - 1] == s[off - 1];
    }
  }

  /** A whole word that follows whitespace at index `n` of a suffix `t` of `s` is a whole word of `s`. */
  lemma LaterWordWhole(s: string, t: string, n: nat, v: string, p: int)
    requires |t| <= |s| && t == s[|s| - |t|..]
    requires n <= |t| && (n < |t| ==> IsSpace(t[n]))
    requires WordAt(t[n..], v, p) && v != [] && !IsSpace(v[0])
    ensures WholeWord(s, v)
  {
    WordAfterSpace(t, n, v, p);
    WordAtShift(s, t, v, n + p);
  }

  /** `w` occurs somewhere in `s` as a whole word. */
  ghost predicate WholeWord(s: string, w: string) {
    exists p :: WordAt(s, w, p)
  }

  /** Every word of `ws` is a whole word of `s`. */
  ghost predicate WholeWords(s: string, ws: seq<string>) {
    forall k :: 0 <= k < |ws| ==> WholeWord(s, ws[k])
  }

  /** A whole first word followed by whole words of the rest of a suffix `t` of `s`: all are whole words of `s`. */
  lemma ConsWordsWhole(s: string, t: string, w: string, ws: seq<string>)
    requires |t| <= |s| && t == s[|s| - |t|..] && WordAt(s, w, |s| - |t|)
    requires |w| <= |t| && (|w| < |t| ==> IsSpace(t[|w|])) && Words(ws)
    requires WholeWords(t[|w|..], ws)
    ensures WholeWords(s, [w] + ws)
  {
    var ss := [w] + ws;
    forall k | 0 <= k < |ss| ensures WholeWord(s, ss[k]) {
      if k == 0 {
        assert WordAt(s, ss[k], |s| - |t|);
      } else {
        var v := ws[k - 1];
        assert ss[k] == v;
        assert WholeWord(t[|w|..], v);
        var p :| WordAt(t[|w|..], v, p);
        assert v != [] && NoSpace(v);
        LaterWordWhole(s, t, |w|, v, p);
      }
    }
  }

  /** `split()` breaks only at whitespace: every word it yields is a whole word of the text. */
  lemma {:induction false} SplitWordsAreWhole(s: string)
    ensures WholeWords(s, Split(s))
    decreases |s|
  {
    var t := LStrip(s);
    if t != [] {
      var w := TakeWord(t);
      SplitStep(s, t, w);
      FirstWordWhole(s, t, w);
      SplitWordsAreWhole(t[|w|..]);
      ConsWordsWhole(s, t, w, Split(t[|w|..]));
    } else {
      assert Split(s) == [];
    }
  }

  /** Every word `ws[k]` is a whole word of `s` at `ps[k]`, and each ends before the whitespace that precedes the next. */
  ghost predicate WordsInOrder(s: string, ws: seq<string>, ps: seq<int>) {
    && |ps| == |ws|
    && (forall k :: 0 <= k < |ws| ==> WordAt(s, ws[k], ps[k]))
    && (forall k :: 0 <= k < |ws| - 1 ==> ps[k] + |ws[k]| < ps[k + 1])
  }

  /**
   * The words of `split()` sit at strictly increasing, whitespace-separated
   * positions of `s`. Together with `SplitKeepsNonSpace` this leaves room for
   * no other list: the words are the maximal whitespace-free runs, in order.
   */
  lemma {:induction false} SplitInOrder(s: string)
    ensures exists ps :: WordsInOrder(s, Split(s), ps)
    decreases |s|
  {
    var t := LStrip(s);
    if t != [] {
      var w := TakeWord(t);
      var ws := Split(t[|w|..]);
      SplitStep(s, t, w);
      FirstWordWhole(s, t, w);
      SplitInOrder(t[|w|..]);
      var ps :| WordsInOrder(t[|w|..], ws, ps);
      ConsInOrder(s, t, w, ws, ps);
    } else {
      assert Split(s) == [];
      assert WordsInOrder(s, [], []);
    }
  }

  lemma ConsInOrder(s: string, t: string, w: string, ws: seq<string>, ps: seq<int>)
    requires |t| <= |s| && t == s[|s| - |t|..] && WordAt(s, w, |s| - |t|)
    requires |w| <= |t| && (|w| < |t| ==> IsSpace(t[|w|])) && Words(ws)
    requires WordsInOrder(t[|w|..], ws, ps)
    ensures exists qs :: WordsInOrder(s, [w] + ws, qs)
  {
    ShiftedWords(s, t, |w|, ws, ps);
    InOrderCons(s, w, ws, |s| - |t| + |w|, ps);
  }

  /** `ShiftedWord` for every word of `ws`, at its position in `ps`. */
  lemma ShiftedWords(s: string, t: string, n: nat, ws: seq<string>, ps: seq<int>)
    requires |t| <= |s| && t == s[|s| - |t|..] && n <= |t| && (n < |t| ==> IsSpace(t[n]))
    requires Words(ws) && |ps| == |ws| && forall k :: 0 <= k < |ws| ==> WordAt(t[n..], ws[k], ps[k])
    ensures forall k :: 0 <= k < |ws| ==> ps[k] > 0 && WordAt(s, ws[k], |s| - |t| + n + ps[k])
  {
    forall k | 0 <= k < |ws| ensures ps[k] > 0 && WordAt(s, ws[k], |s| - |t| + n + ps[k]) {
      ShiftedWord(s, t, n, ws[k], ps[k]);
    }
  }

  /** A whole word of `t[n..]`, where `t` is a suffix of `s` with whitespace at `n`, is a whole word of `s`, past index `n` of `t`. */
  lemma ShiftedWord(s: string, t: string, n: nat, v: string, p: int)
    requires |t| <= |s| && t == s[|s| - |t|..] && n <= |t| && (n < |t| ==> IsSpace(t[n]))
    requires WordAt(t[n..], v, p) && v != [] && NoSpace(v)
    ensures p > 0 && WordAt(s, v, |s| - |t| + n + p)
  {
    assert !IsSpace(v[0]);
    WordAfterSpace(t, n, v, p);
    WordAtShift(s, t, v, n + p);
  }

  /** A word ending at `off`, followed by words in order at positions past `off`, gives words in order. */
  lemma InOrderCons(s: string, w: string, ws: seq<string>, off: int, ps: seq<int>)
    requires WordAt(s, w, off - |w|) && |ps| == |ws|
    requires forall k :: 0 <= k < |ws| ==> ps[k] > 0 && WordAt(s, ws[k], off + ps[k])
    requires forall k :: 0 <= k < |ws| - 1 ==> ps[k] + |ws[k]| < ps[k + 1]
    ensures exists qs :: WordsInOrder(s, [w] + ws, qs)
  {
    var qs := [off - |w|] + seq(|ps|, i requires 0 <= i < |ps| => off + ps[i]);
    assert forall k :: 0 < k < |qs| ==> qs[k] == off + ps[k - 1];
    ConsWordsAt(s, w, ws, off, ps, qs);
    ConsPositionsOrdered(w, ws, off, ps, qs);
    assert WordsInOrder(s, [w] + ws, qs);
  }

  /** The positions `qs` (`off - |w|`, then `off` plus each of `ps`) place every word of `[w] + ws`. */
  lemma ConsWordsAt(s: string, w: string, ws: seq<string>, off: int, ps: seq<int>, qs: seq<int>)
    requires WordAt(s, w, off - |w|) && |ps| == |ws|
    requires forall k :: 0 <= k < |ws| ==> WordAt(s, ws[k], off + ps[k])
    requires |qs| == |ps| + 1 && qs[0] == off - |w| && forall k :: 0 < k < |qs| ==> qs[k] == off + ps[k - 1]
    ensures forall k :: 0 <= k < |qs| ==> WordAt(s, ([w] + ws)[k], qs[k])
  {
    var ss := [w] + ws;
    forall k | 0 <= k < |ss| ensures WordAt(s, ss[k], qs[k]) {
      if k > 0 {
        assert ss[k] == ws[k - 1];
      }
    }
  }

  /** The positions `qs` keep the words of `[w] + ws` apart, given that `ps` keeps those of `ws` apart. */
  lemma ConsPositionsOrdered(w: string, ws: seq<string>, off: int, ps: seq<int>, qs: seq<int>)
    requires |ps| == |ws| && forall k :: 0 <= k < |ws| ==> ps[k] > 0
    requires forall k :: 0 <= k < |ws| - 1 ==> ps[k] + |ws[k]| < ps[k + 1]
    requires |qs| == |ps| + 1 && qs[0] == off - |w| && forall k :: 0 < k < |qs| ==> qs[k] == off + ps[k - 1]
    ensures forall k :: 0 <= k < |qs| - 1 ==> qs[k] + |([w] + ws)[k]| < qs[k + 1]
  {
    var ss := [w] + ws;
    forall k | 0 <= k < |ss| - 1 ensures qs[k] + |ss[k]| < qs[k + 1] {
      if k > 0 {
        assert ss[k] == ws[k - 1];
      }
    }
  }

  /** The characters of a whitespace prefix `s[..n]`, one by one. */
  lemma SpacePrefix(s: string, n: int)
    requires 0 <= n <= |s| && AllSpace(s[..n])
    ensures forall i :: 0 <= i < n ==> IsSpace(s[i])
  {
    forall i | 0 <= i < n ensures IsSpace(s[i]) {
      assert s[..n][i] == s[i];
    }
  }

  /** The characters of a whitespace-free prefix `s[..n]`, one by one. */
  lemma NoSpacePrefix(s: string, n: int)
    requires 0 <= n <= |s| && NoSpace(s[..n])
    ensures forall i :: 0 <= i < n ==> !IsSpace(s[i])
  {
    forall i | 0 <= i < n ensures !IsSpace(s[i]) {
      assert s[..n][i] == s[i];
    }
  }

  /** A whole word of `s` that starts inside its suffix `u` is a whole word of `u`. */
  lemma WordAtSuffix(s: string, u: string, w: string, p: int)
    requires |u| <= |s| && u == s[|s| - |u|..] && WordAt(s, w, p) && |s| - |u| <= p
    ensures WordAt(u, w, p - (|s| - |u|))
  {
    var q := p - (|s| - |u|);
    assert u[q..q + |w|] == s[p..p + |w|];
    if q > 0 {
      assert u[q - 1] == s[p - 1];
    }
    if q + |w| < |u| {
      assert u[q + |w|] == s[p + |w|];
    }
  }

  /** A non-empty whitespace-free word at `p` starts on a non-whitespace character. */
  lemma WordStart(s: string, w: string, p: int)
    requires WordAt(s, w, p) && w != [] && NoSpace(w)
    ensures p < |s| && !IsSpace(s[p])
  {
    assert s[p..p + |w|][0] == s[p];
  }

  /** A whole word of `s` is a whole word of what `lstrip()` leaves. */
  lemma WordInStripped(s: string, t: string, w: string, p: int)
    requires |t| <= |s| && t == s[|s| - |t|..] && AllSpace(s[..|s| - |t|])
    requires w != [] && NoSpace(w) && WordAt(s, w, p)
    ensures |s| - |t| <= p && WordAt(t, w, p - (|s| - |t|))
  {
    SpacePrefix(s, |s| - |t|);
    WordStart(s, w, p);
    WordAtSuffix(s, t, w, p);
  }

  /** A whole word at the very start of `t` is what `TakeWord` returns. */
  lemma TakeWordIsWord(t: string, tw: string, w: string)
    requires |tw| <= |t| && tw == t[..|tw|] && NoSpace(tw) && (|tw| < |t| ==> IsSpace(t[|tw|]))
    requires WordAt(t, w, 0) && NoSpace(w)
    ensures tw == w
  {
    NoSpacePrefix(t, |tw|);
    NoSpacePrefix(t, |w|);
  }

  /** A whole word of `t` past its first word is a whole word of the text after the first word. */
  lemma WordAfterFirst(t: string, tw: string, w: string, q: int)
    requires |tw| <= |t| && tw == t[..|tw|] && NoSpace(tw)
    requires WordAt(t, w, q) && 0 < q && w != []
    ensures |tw| < q && WordAt(t[|tw|..], w, q - |tw|)
  {
    NoSpacePrefix(t, |tw|);
    WordAtSuffix(t, t[|tw|..], w, q);
  }

  /** Every non-empty, whitespace-free whole word of `s` is one of the words of `split()`. */
  lemma {:induction false} WholeWordInSplit(s: string, w: string, p: int)
    requires w != [] && NoSpace(w) && WordAt(s, w, p)
    ensures w in Split(s)
    decreases |s|, 1
  {
    var t := LStrip(s);
    assert t != [] by { WordInStripped(s, t, w, p); }
    var tw := TakeWord(t);
    SplitStep(s, t, tw);
    FirstOrInRest(s, t, tw, w, p);
  }

  /** The step of `WholeWordInSplit`: the word is the first word `tw` of the stripped text `t`, or a word of the split of the rest. */
  lemma {:induction false} FirstOrInRest(s: string, t: string, tw: string, w: string, p: int)
    requires w != [] && NoSpace(w) && WordAt(s, w, p)
    requires |t| <= |s| && t == s[|s| - |t|..] && AllSpace(s[..|s| - |t|])
    requires tw != [] && |tw| <= |t| && tw == t[..|tw|] && NoSpace(tw) && (|tw| < |t| ==> IsSpace(t[|tw|]))
    ensures w == tw || w in Split(t[|tw|..])
    decreases |s|, 0
  {
    var q := p - (|s| - |t|);
    FirstOrRest(s, t, tw, w, p);
    if q != 0 {
      WholeWordInSplit(t[|tw|..], w, q - |tw|);
    }
  }

  /** A whole word of `s` is either the first word `tw` of the stripped text `t`, or a whole word of the text after it. */
  lemma FirstOrRest(s: string, t: string, tw: string, w: string, p: int)
    requires w != [] && NoSpace(w) && WordAt(s, w, p)
    requires |t| <= |s| && t == s[|s| - |t|..] && AllSpace(s[..|s| - |t|])
    requires |tw| <= |t| && tw == t[..|tw|] && NoSpace(tw) && (|tw| < |t| ==> IsSpace(t[|tw|]))
    ensures var q := p - (|s| - |t|);
      if q == 0 then tw == w else |tw| < q && WordAt(t[|tw|..], w, q - |tw|)
  {
    var q := p - (|s| - |t|);
    WordInStripped(s, t, w, p);
    if q == 0 {
      TakeWordIsWord(t, tw, w);
    } else {
      WordAfterFirst(t, tw, w, q);
    }
  }

  /** One step of `Split`: the first word of what `lstrip()` leaves, then the split of the rest. */
  lemma SplitStep(s: string, t: string, tw: string)
    requires t == LStrip(s) && t != [] && tw == TakeWord(t)
    ensures Split(s) == [tw] + Split(t[|tw|..])
  {
  }

  /** The words of `split()` are exactly the non-empty, whitespace-free whole words of `s`. */
  lemma SplitWordsExactly(s: string)
    ensures forall w :: w in Split(s) <==> w != [] && NoSpace(w) && WholeWord(s, w)
  {
    var ws := Split(s);
    SplitWordsAreWhole(s);
    forall w | w in ws ensures w != [] && NoSpace(w) && WholeWord(s, w) {
      var k :| 0 <= k < |ws| && ws[k] == w;
    }
    forall w | w != [] && NoSpace(w) && WholeWord(s, w) ensures w in ws {
      var p :| WordAt(s, w, p);
      WholeWordInSplit(s, w, p);
    }
  }

  /** `set(ws)` for a list of strings. */
  function SetOf(ws: seq<string>): (r: set<string>)
    ensures forall w :: w in r <==> w in ws
  {
    if ws == [] then {} else {ws[0]} + SetOf(ws[1..])
  }

  /** `set(s.split())`. */
  function WordSet(s: string): (r: set<string>)
    ensures forall w :: w in r <==> w != [] && NoSpace(w) && WholeWord(s, w)
  {
    SplitWordsExactly(s);
    SetOf(Split(s))
  }

  // ---------------------------------------------------------------------
  // count() and rfind()

  /** `sub` occurs in `s` starting at index `i`. */
  predicate OccursAt(s: string, sub: string, i: int) {
    0 <= i && i + |sub| <= |s| && s[i..i + |sub|] == sub
  }

  /** An occurrence of a non-empty `sub` starts with `sub`'s first character. */
  lemma OccursAtHead(s: string, sub: string, i: int)
    ensures OccursAt(s, sub, i) && sub != [] ==> s[i] == sub[0]
  {
    if OccursAt(s, sub, i) && sub != [] {
      assert s[i..i + |sub|][0] == s[i];
    }
  }


  /** Python's non-overlapping left-to-right occurrence count of a non-empty `sub`, from index `i` on. */
  function CountFrom(s: string, sub: string, i: nat): (r: nat)
    requires sub != [] && i <= |s|
    ensures r > 0 <==> exists j :: i <= j && OccursAt(s, sub, j)
    decreases |s| - i
  {
    if i + |sub| > |s| then 0
    else if s[i..i + |sub|] == sub then
      assert OccursAt(s, sub, i);
      1 + CountFrom(s, sub, i + |sub|)
    else
      var r := CountFrom(s, sub, i + 1);
      assert forall j :: i <= j && OccursAt(s, sub, j) ==> i + 1 <= j;
      r
  }

  /** The occurrences counted from `i` on do not overlap, so together they fit in what is left of `s`. */
  lemma {:induction false} CountFromFits(s: string, sub: string, i: nat)
    requires sub != [] && i <= |s|
    ensures CountFrom(s, sub, i) * |sub| <= |s| - i
    decreases |s| - i
  {
    if i + |sub| > |s| {
      assert CountFrom(s, sub, i) == 0;
      MulZero(|sub|);
    } else if s[i..i + |sub|] == sub {
      CountFromFits(s, sub, i + |sub|);
      MulSucc(CountFrom(s, sub, i + |sub|), |sub|);
    } else {
      CountFromFits(s, sub, i + 1);
    }
  }

  /** `s.count(sub)`: the number of non-overlapping occurrences; an empty `sub` counts `len(s) + 1` times. */
  function Count(s: string, sub: string): (r: nat)
    ensures sub == [] ==> r == |s| + 1
    ensures sub != [] ==> (r > 0 <==> exists j :: OccursAt(s, sub, j))
  {
    if sub == [] then |s| + 1 else CountFrom(s, sub, 0)
  }

  lemma MulZero(n: nat)
    ensures 0 * n == 0
  {
  }

  lemma MulSucc(r: nat, n: nat)
    ensures (1 + r) * n == n + r * n
  {
  }

  /** A non-empty `sub` occurs at most `len(s) / len(sub)` times without overlap. */
  lemma CountFits(s: string, sub: string)
    requires sub != []
    ensures Count(s, sub) * |sub| <= |s|
  {
    CountFromFits(s, sub, 0);
  }

  /** `ps` are start positions at or after `i` of pairwise non-overlapping occurrences of `sub`, in increasing order. */
  predicate Disjoint(s: string, sub: string, ps: seq<int>, i: int) {
    && (forall k :: 0 <= k < |ps| ==> i <= ps[k] && OccursAt(s, sub, ps[k]))
    && (forall a, b :: 0 <= a < b < |ps| ==> ps[a] + |sub| <= ps[b])
  }

  /** Occurrences from `i` on exist only when `sub` fits after `i`. */
  lemma DisjointFits(s: string, sub: string, ps: seq<int>, i: int)
    requires Disjoint(s, sub, ps, i)
    ensures ps == [] || i + |sub| <= |s|
  {
    if ps != [] {
      assert OccursAt(s, sub, ps[0]);
    }
  }

  /** The count from `i` is reached: that many non-overlapping occurrences exist. */
  lemma {:induction false} CountFromReached(s: string, sub: string, i: nat)
    requires sub != [] && i <= |s|
    ensures exists ps :: Disjoint(s, sub, ps, i) && |ps| == CountFrom(s, sub, i)
    decreases |s| - i
  {
    if i + |sub| > |s| {
      assert Disjoint(s, sub, [], i);
    } else if s[i..i + |sub|] == sub {
      CountFromReached(s, sub, i + |sub|);
      var ps :| Disjoint(s, sub, ps, i + |sub|) && |ps| == CountFrom(s, sub, i + |sub|);
      assert OccursAt(s, sub, i);
      DisjointCons(s, sub, i, ps);
      assert |[i] + ps| == CountFrom(s, sub, i);
    } else {
      CountFromReached(s, sub, i + 1);
      var ps :| Disjoint(s, sub, ps, i + 1) && |ps| == CountFrom(s, sub, i + 1);
      assert Disjoint(s, sub, ps, i);
    }
  }

  lemma DisjointCons(s: string, sub: string, i: nat, ps: seq<int>)
    requires OccursAt(s, sub, i) && Disjoint(s, sub, ps, i + |sub|)
    ensures Disjoint(s, sub, [i] + ps, i)
  {
    var qs := [i] + ps;
    assert forall k :: 1 <= k < |qs| ==> qs[k] == ps[k - 1];
  }

  /** No choice of non-overlapping occurrences from `i` on outnumbers the count from `i`. */
  lemma {:induction false} CountFromMaximal(s: string, sub: string, i: nat, ps: seq<int>)
    requires sub != [] && i <= |s| && Disjoint(s, sub, ps, i)
    ensures |ps| <= CountFrom(s, sub, i)
    decreases |s| - i
  {
    DisjointFits(s, sub, ps, i);
    if i + |sub| > |s| {
    } else if ps == [] {
    } else if s[i..i + |sub|] == sub {
      DisjointTail(s, sub, ps, i);
      CountFromMaximal(s, sub, i + |sub|, ps[1..]);
    } else {
      DisjointSkip(s, sub, ps, i);
      CountFromMaximal(s, sub, i + 1, ps);
    }
  }

  /** Dropping the first of non-overlapping occurrences from `i` leaves occurrences from `i + |sub|`. */
  lemma DisjointTail(s: string, sub: string, ps: seq<int>, i: int)
    requires Disjoint(s, sub, ps, i) && ps != []
    ensures Disjoint(s, sub, ps[1..], i + |sub|)
  {
    var qs := ps[1..];
    forall k | 0 <= k < |qs| ensures i + |sub| <= qs[k] && OccursAt(s, sub, qs[k]) {
      assert qs[k] == ps[k + 1];
      assert ps[0] + |sub| <= ps[k + 1];
    }
    forall a, b | 0 <= a < b < |qs| ensures qs[a] + |sub| <= qs[b] {
      assert qs[a] == ps[a + 1] && qs[b] == ps[b + 1];
    }
  }

  /** Occurrences from `i`, when `sub` does not occur at `i`, are occurrences from `i + 1`. */
  lemma DisjointSkip(s: string, sub: string, ps: seq<int>, i: int)
    requires Disjoint(s, sub, ps, i) && !OccursAt(s, sub, i)
    ensures Disjoint(s, sub, ps, i + 1)
  {
  }

  /**
   * `s.count(sub)` for a non-empty `sub` is the largest number of
   * non-overlapping occurrences: that many exist, and no more do.
   */
  lemma CountIsMaximal(s: string, sub: string)
    requires sub != []
    ensures exists ps :: Disjoint(s, sub, ps, 0) && |ps| == Count(s, sub)
    ensures forall ps :: Disjoint(s, sub, ps, 0) ==> |ps| <= Count(s, sub)
  {
    CountFromReached(s, sub, 0);
    forall ps | Disjoint(s, sub, ps, 0) ensures |ps| <= Count(s, sub) {
      CountFromMaximal(s, sub, 0, ps);
    }
  }

  /** The last start position `<= i` at which `sub` occurs, or -1. */
  function RFindFrom(s: string, sub: string, i: int): (r: int)
    requires -1 <= i
    ensures -1 <= r <= i
    ensures r >= 0 ==> OccursAt(s, sub, r)
    ensures forall j :: r < j <= i ==> !OccursAt(s, sub, j)
    decreases i + 1
  {
    if i < 0 then -1
    else if OccursAt(s, sub, i) then i
    else RFindFrom(s, sub, i - 1)
  }

  /** `s.rfind(sub)`: the start of the last occurrence of `sub` in `s`, or -1 when there is none. */
  function RFind(s: string, sub: string): (r: int)
    ensures -1 <= r <= |s|
    ensures r >= 0 ==> OccursAt(s, sub, r)
    ensures forall j :: r < j ==> !OccursAt(s, sub, j)
  {
    if |s| < |sub| then -1 else RFindFrom(s, sub, |s| - |sub|)
  }
}
