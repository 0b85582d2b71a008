/**
 * The body-to-paragraphs pipeline of public/js/post.js:
 * `body.split(/\n\n+/).filter(p => p.trim()).map(p => p.trim())`.
 * The HTML it is wrapped in and its escaping are left out.
 */
module Paragraphs {

  /** The characters JavaScript's `trim` removes: WhiteSpace and LineTerminator. */
  predicate IsSpace(c: char) {
    || c == '\t' || c == '\n' || c == '\U{000B}' || c == '\U{000C}' || c == '\r' || c == ' '
    || c == '\U{00A0}' || c == '\U{1680}' || ('\U{2000}' <= c <= '\U{200A}')
    || c == '\U{2028}' || c == '\U{2029}' || c == '\U{202F}' || c == '\U{205F}'
    || c == '\U{3000}' || c == '\U{FEFF}'
  }

  ghost predicate AllSpace(s: string) {
    forall i :: 0 <= i < |s| ==> IsSpace(s[i])
  }

  /** Positions i and i + 1 of `s` are both newlines. */
  predicate BlankAt(s: string, i: int)
    requires 0 <= i < |s| - 1
  {
    s[i] == '\n' && s[i + 1] == '\n'
  }

  /** No two consecutive newlines, i.e. no blank line inside. */
  ghost predicate NoBlankLine(s: string) {
    forall i :: 0 <= i < |s| - 1 ==> !BlankAt(s, i)
  }

  /** `s` with its leading whitespace removed: the longest suffix not starting with a space. */
  function TrimStart(s: string): (r: string)
    ensures |r| <= |s| && r == s[|s| - |r|..]
    ensures r == "" || !IsSpace(r[0])
    ensures AllSpace(s[..|s| - |r|])
    decreases |s|
  {
    if |s| > 0 && IsSpace(s[0]) then
      var r := TrimStart(s[1..]);
      assert s[1..][..|s| - 1 - |r|] == s[1..|s| - |r|];
      r
    else s
  }

  /** `s` with its trailing whitespace removed: the longest prefix not ending with a space. */
  function TrimEnd(s: string): (r: string)
    ensures |r| <= |s| && r == s[..|r|]
    ensures r == "" || !IsSpace(r[|r| - 1])
    ensures AllSpace(s[|r|..])
    decreases |s|
  {
    if |s| > 0 && IsSpace(s[|s| - 1]) then
      var r := TrimEnd(s[..|s| - 1]);
      assert forall i :: |r| <= i < |s| - 1 ==> s[i] == s[..|s| - 1][|r|..][i - |r|];
      assert forall i :: 0 <= i < |s| - |r| ==> s[|r|..][i] == s[|r| + i];
      r
    else s
  }

  /** `String.prototype.trim` */
  function Trim(s: string): (r: string)
    ensures r == "" || (!IsSpace(r[0]) && !IsSpace(r[|r| - 1]))
    ensures r == "" <==> AllSpace(s)
  {
    TrimBothEmpty(s);
    TrimEnd(TrimStart(s))
  }

  /** `r` is the part of `s` from position `k` on, with only whitespace before and after it. */
  ghost predicate TrimmedAt(s: string, r: string, k: int) {
    0 <= k && k + |r| <= |s| && r == s[k..k + |r|] && AllSpace(s[..k]) && AllSpace(s[k + |r|..])
  }

  /** Trimming keeps a contiguous part of the text and drops only whitespace around it. */
  lemma TrimSlice(s: string)
    ensures exists k :: TrimmedAt(s, Trim(s), k)
  {
    var front := TrimStart(s);
    var k := |s| - |front|;
    var r := TrimEnd(front);
    assert front == s[k..];
    assert r == front[..|r|];
    assert s[k..k + |r|] == front[..|r|];
    assert s[k + |r|..] == front[|r|..];
    assert Trim(s) == r;
    assert TrimmedAt(s, r, k);
  }

  /** Trimming both ends leaves nothing exactly when every character is a space. */
  lemma TrimBothEmpty(s: string)
    ensures TrimEnd(TrimStart(s)) == "" <==> AllSpace(s)
  {
    var front := TrimStart(s);
    var k := |s| - |front|;
    var r := TrimEnd(front);
    if r == "" {
      assert front[|r|..] == front;
      assert front == "";
      assert s[..k] == s;
    } else {
      assert r[0] == s[k];
    }
  }

  /** A contiguous part of a text without a blank line has none either. */
  lemma SliceNoBlankLine(s: string, a: int, b: int)
    requires NoBlankLine(s) && 0 <= a <= b <= |s|
    ensures NoBlankLine(s[a..b])
  {
    forall i | 0 <= i < b - a - 1 ensures !BlankAt(s[a..b], i) {
      assert !BlankAt(s, a + i);
    }
  }

  /** Trimming keeps a contiguous part of the text, so it cannot create a blank line. */
  lemma TrimKeepsNoBlankLine(s: string)
    requires NoBlankLine(s)
    ensures NoBlankLine(Trim(s))
  {
    var front := TrimStart(s);
    var k := |s| - |front|;
    var r := TrimEnd(front);
    assert front == s[k..|s|];
    assert r == front[0..|r|];
    SliceNoBlankLine(s, k, |s|);
    SliceNoBlankLine(front, 0, |r|);
  }

  /** Trimming twice is trimming once. */
  lemma TrimIdempotent(s: string)
    ensures Trim(Trim(s)) == Trim(s)
  {
    var t := Trim(s);
    if t != "" {
      assert TrimStart(t) == t;
      assert TrimEnd(t) == t;
    }
  }

  /** `s` without its leading newlines. */
  function DropNewlines(s: string): (r: string)
    ensures |r| <= |s| && r == s[|s| - |r|..]
    ensures r == "" || r[0] != '\n'
    ensures forall i :: 0 <= i < |s| - |r| ==> s[i] == '\n'
    decreases |s|
  {
    if |s| > 0 && s[0] == '\n' then DropNewlines(s[1..]) else s
  }

  /** `s` starts with a separator: two or more newlines. */
  predicate StartsBlank(s: string) {
    |s| >= 2 && s[0] == '\n' && s[1] == '\n'
  }

  /**
   * `split(/\n\n+/)`: the leftmost match is a whole run of two or more
   * newlines, so the pieces are what lies between such runs.
   */
  function Split(s: string): (r: seq<string>)
    ensures |r| >= 1
    ensures |r[0]| > 0 ==> |s| > 0 && r[0][0] == s[0]
    ensures forall i :: 0 <= i < |r| ==> NoBlankLine(r[i])
    ensures AllSpace(s) ==> forall i :: 0 <= i < |r| ==> AllSpace(r[i])
    decreases |s|
  {
    if |s| == 0 then [""]
    else if StartsBlank(s) then
      var rest := DropNewlines(s);
      assert AllSpace(s) ==> AllSpace(rest) by {
        if AllSpace(s) {
          assert forall i :: 0 <= i < |rest| ==> rest[i] == s[|s| - |rest| + i];
        }
      }
      [""] + Split(rest)
    else
      var rest := Split(s[1..]);
      var head := [s[0]] + rest[0];
      assert NoBlankLine(head) by {
        forall i | 0 <= i < |head| - 1 ensures !BlankAt(head, i) {
          if i > 0 {
            assert head[i] == rest[0][i - 1] && head[i + 1] == rest[0][i];
            assert !BlankAt(rest[0], i - 1);
          }
        }
      }
      [head] + rest[1..]
  }

  /** `.filter(p => p.trim()).map(p => p.trim())` */
  function Tidy(pieces: seq<string>): (r: seq<string>)
    ensures |r| <= |pieces|
    decreases |pieces|
  {
    if |pieces| == 0 then []
    else
      var p := Trim(pieces[0]);
      (if p != "" then [p] else []) + Tidy(pieces[1..])
  }

  /**
   * `r` is `pieces` filtered through `f` and mapped by it, as witnessed by
   * `idx`: the positions, in increasing order, of exactly the pieces that `f`
   * takes to something non-empty, and `r[i]` is `f` of piece `idx[i]`.
   */
  ghost predicate KeptAt(pieces: seq<string>, r: seq<string>, idx: seq<int>, f: string -> string) {
    && |idx| == |r|
    && (forall i :: 0 <= i < |idx| ==> 0 <= idx[i] < |pieces| && r[i] == f(pieces[idx[i]]) && r[i] != "")
    && (forall i, j :: 0 <= i < j < |idx| ==> idx[i] < idx[j])
    && (forall j :: 0 <= j < |pieces| && f(pieces[j]) != "" ==> j in idx)
  }

  /** Each piece with text in it yields its trim, in the order of the pieces, and no other piece yields anything. */
  ghost predicate TrimsInOrder(pieces: seq<string>, r: seq<string>) {
    exists idx :: KeptAt(pieces, r, idx, Trim)
  }

  /** The positions of the pieces that `f` takes to something non-empty, in increasing order. */
  ghost function KeptIndices(pieces: seq<string>, f: string -> string): seq<int>
    decreases |pieces|
  {
    if |pieces| == 0 then []
    else (if f(pieces[0]) != "" then [0] else []) + Shift(KeptIndices(pieces[1..], f))
  }

  ghost function Shift(s: seq<int>): (r: seq<int>)
    ensures |r| == |s| && forall i :: 0 <= i < |s| ==> r[i] == s[i] + 1
  {
    seq(|s|, i requires 0 <= i < |s| => s[i] + 1)
  }

  /** One step of the filter and map: the first piece, if it trims to something, then the rest. */
  lemma TidyCons(pieces: seq<string>)
    requires |pieces| > 0
    ensures Tidy(pieces) == (if Trim(pieces[0]) != "" then [Trim(pieces[0])] else []) + Tidy(pieces[1..])
  {
  }

  /** The filter and map keep exactly the pieces with text in them, trimmed, in their order. */
  lemma {:induction false} TidyKeeps(pieces: seq<string>)
    ensures KeptAt(pieces, Tidy(pieces), KeptIndices(pieces, Trim), Trim)
    decreases |pieces|
  {
    if |pieces| > 0 {
      var tail := pieces[1..];
      TidyKeeps(tail);
      TidyCons(pieces);
      if Trim(pieces[0]) == "" {
        KeptSkip(pieces, Tidy(tail), KeptIndices(tail, Trim), Trim);
      } else {
        KeptTake(pieces, Tidy(tail), KeptIndices(tail, Trim), Trim);
      }
    }
  }

  /** A first piece that `f` takes to nothing adds nothing; the positions of the rest move up by one. */
  lemma KeptSkip(pieces: seq<string>, rest: seq<string>, ri: seq<int>, f: string -> string)
    requires |pieces| > 0 && f(pieces[0]) == ""
    requires KeptAt(pieces[1..], rest, ri, f)
    ensures KeptAt(pieces, rest, Shift(ri), f)
  {
    var tail, idx := pieces[1..], Shift(ri);
    forall i | 0 <= i < |idx| ensures 0 <= idx[i] < |pieces| && rest[i] == f(pieces[idx[i]]) {
      assert tail[ri[i]] == pieces[ri[i] + 1];
    }
    ShiftIncreasing(ri);
    ShiftCovers(pieces, ri, f);
  }

  /** Every later piece that `f` keeps has its position, moved up by one, among the shifted positions. */
  lemma ShiftCovers(pieces: seq<string>, ri: seq<int>, f: string -> string)
    requires |pieces| > 0
    requires forall j :: 0 <= j < |pieces[1..]| && f(pieces[1..][j]) != "" ==> j in ri
    ensures forall j :: 1 <= j < |pieces| && f(pieces[j]) != "" ==> j in Shift(ri)
  {
    var tail, idx := pieces[1..], Shift(ri);
    forall j | 1 <= j < |pieces| && f(pieces[j]) != "" ensures j in idx {
      assert tail[j - 1] == pieces[j];
      var m :| 0 <= m < |ri| && ri[m] == j - 1;
      assert idx[m] == j;
    }
  }

  /** A first piece that `f` takes to something comes first; the positions of the rest move up by one. */
  lemma KeptTake(pieces: seq<string>, rest: seq<string>, ri: seq<int>, f: string -> string)
    requires |pieces| > 0 && f(pieces[0]) != ""
    requires KeptAt(pieces[1..], rest, ri, f)
    ensures KeptAt(pieces, [f(pieces[0])] + rest, [0] + Shift(ri), f)
  {
    var tail, sh := pieces[1..], Shift(ri);
    var r, idx := [f(pieces[0])] + rest, [0] + sh;
    assert |idx| == |r|;
    forall i | 0 <= i < |idx| ensures 0 <= idx[i] < |pieces| && r[i] == f(pieces[idx[i]]) && r[i] != "" {
      if i > 0 {
        assert idx[i] == ri[i - 1] + 1 && r[i] == rest[i - 1];
        assert tail[ri[i - 1]] == pieces[ri[i - 1] + 1];
      }
    }
    assert forall i :: 0 <= i < |ri| ==> 0 <= ri[i];
    ZeroShiftIncreasing(ri);
    ShiftCovers(pieces, ri, f);
    forall j | 0 <= j < |pieces| && f(pieces[j]) != "" ensures j in idx {
      if j == 0 {
        assert idx[0] == 0;
      } else {
        var m :| 0 <= m < |sh| && sh[m] == j;
        assert idx[m + 1] == j;
      }
    }
  }

  /** When nothing is kept, `f` takes every piece to nothing. */
  lemma KeptNothing(pieces: seq<string>, idx: seq<int>, f: string -> string)
    requires KeptAt(pieces, [], idx, f)
    ensures forall j :: 0 <= j < |pieces| ==> f(pieces[j]) == ""
  {
    forall j | 0 <= j < |pieces| ensures f(pieces[j]) == "" {
      assert j !in idx;
    }
  }

  /** Moving increasing positions up by one keeps them increasing. */
  lemma ShiftIncreasing(ri: seq<int>)
    requires forall i, j :: 0 <= i < j < |ri| ==> ri[i] < ri[j]
    ensures forall i, j :: 0 <= i < j < |Shift(ri)| ==> Shift(ri)[i] < Shift(ri)[j]
  {
  }

  /** Putting 0 in front of non-negative increasing positions moved up by one keeps them increasing. */
  lemma ZeroShiftIncreasing(ri: seq<int>)
    requires forall i :: 0 <= i < |ri| ==> 0 <= ri[i]
    requires forall i, j :: 0 <= i < j < |ri| ==> ri[i] < ri[j]
    ensures forall i, j :: 0 <= i < j < |[0] + Shift(ri)| ==> ([0] + Shift(ri))[i] < ([0] + Shift(ri))[j]
  {
    var idx := [0] + Shift(ri);
    forall i, j | 0 <= i < j < |idx| ensures idx[i] < idx[j] {
      assert idx[j] == ri[j - 1] + 1;
      if i > 0 {
        assert idx[i] == ri[i - 1] + 1;
      }
    }
  }

  /** The paragraphs a post's body is shown as. */
  function Paragraphs(body: string): (r: seq<string>)
    ensures forall i :: 0 <= i < |r| ==> Clean(r[i])
    ensures TrimsInOrder(Split(body), r)
  {
    var pieces := Split(body);
    TidyClean(pieces);
    TidyKeeps(pieces);
    Tidy(pieces)
  }

  /** A finished paragraph: non-empty, already trimmed, and without a blank line. */
  ghost predicate Clean(p: string) {
    p != "" && Trim(p) == p && NoBlankLine(p)
  }

  /** A piece without a blank line either trims to nothing or to a finished paragraph. */
  lemma TrimClean(s: string)
    requires NoBlankLine(s)
    ensures Trim(s) != "" ==> Clean(Trim(s))
  {
    TrimIdempotent(s);
    TrimKeepsNoBlankLine(s);
  }

  /** Every paragraph is a finished one. */
  lemma {:induction false} TidyClean(pieces: seq<string>)
    requires forall i :: 0 <= i < |pieces| ==> NoBlankLine(pieces[i])
    ensures forall i :: 0 <= i < |Tidy(pieces)| ==> Clean(Tidy(pieces)[i])
    decreases |pieces|
  {
    if |pieces| > 0 {
      var p := Trim(pieces[0]);
      var rest := Tidy(pieces[1..]);
      TidyClean(pieces[1..]);
      TrimClean(pieces[0]);
      var head := if p != "" then [p] else [];
      TidyCons(pieces);
      assert forall i :: 0 <= i < |head| ==> Clean(head[i]);
      ConcatClean(head, rest);
    }
  }

  /** Finished paragraphs stay finished when two lists are concatenated. */
  lemma ConcatClean(a: seq<string>, b: seq<string>)
    requires forall i :: 0 <= i < |a| ==> Clean(a[i])
    requires forall i :: 0 <= i < |b| ==> Clean(b[i])
    ensures forall i :: 0 <= i < |a + b| ==> Clean((a + b)[i])
  {
    forall i | 0 <= i < |a + b| ensures Clean((a + b)[i]) {
      if i >= |a| {
        assert (a + b)[i] == b[i - |a|];
      }
    }
  }

  /** Pieces of whitespace only leave no paragraph. */
  lemma {:induction false} TidyBlank(pieces: seq<string>)
    requires forall i :: 0 <= i < |pieces| ==> AllSpace(pieces[i])
    ensures Tidy(pieces) == []
    decreases |pieces|
  {
    if |pieces| > 0 {
      TidyBlank(pieces[1..]);
      assert Trim(pieces[0]) == "";
    }
  }

  /** A body has no paragraphs exactly when it is whitespace only. */
  lemma BlankBodyHasNoParagraphs(body: string)
    ensures Paragraphs(body) == [] <==> AllSpace(body)
  {
    var pieces := Split(body);
    assert Paragraphs(body) == Tidy(pieces);
    if AllSpace(body) {
      TidyBlank(pieces);
    }
    if Tidy(pieces) == [] {
      TidyKeeps(pieces);
      KeptNothing(pieces, KeptIndices(pieces, Trim), Trim);
      forall i | 0 <= i < |pieces| ensures AllSpace(pieces[i]) {
        assert Trim(pieces[i]) == "";
      }
      SplitBlank(body);
    }
  }

  /** A body whose pieces are all whitespace is whitespace: the separators are newlines. */
  lemma {:induction false} SplitBlank(s: string)
    requires forall i :: 0 <= i < |Split(s)| ==> AllSpace(Split(s)[i])
    ensures AllSpace(s)
    decreases |s|
  {
    if |s| == 0 {
    } else if StartsBlank(s) {
      var rest := DropNewlines(s);
      assert Split(s) == [""] + Split(rest);
      assert forall i :: 0 <= i < |Split(rest)| ==> Split(rest)[i] == Split(s)[i + 1];
      SplitBlank(rest);
      forall i | 0 <= i < |s| ensures IsSpace(s[i]) {
        if i >= |s| - |rest| {
          assert s[i] == rest[i - (|s| - |rest|)];
        }
      }
    } else {
      var t := Split(s[1..]);
      var head := [s[0]] + t[0];
      assert Split(s) == [head] + t[1..];
      assert AllSpace(head);
      assert IsSpace(head[0]);
      forall i | 0 <= i < |t| ensures AllSpace(t[i]) {
        if i == 0 {
          assert forall m :: 0 <= m < |t[0]| ==> t[0][m] == head[m + 1];
        } else {
          assert t[i] == Split(s)[i];
        }
      }
      SplitBlank(s[1..]);
      assert forall i :: 1 <= i < |s| ==> s[i] == s[1..][i - 1];
    }
  }

  /** The pieces joined back with one blank line between each two. */
  function JoinBlank(pieces: seq<string>): string
    decreases |pieces|
  {
    if |pieces| == 0 then ""
    else if |pieces| == 1 then pieces[0]
    else pieces[0] + ("\n\n" + JoinBlank(pieces[1..]))
  }

  /** The body with every run of two or more newlines shortened to exactly two. */
  function Collapse(s: string): string
    decreases |s|
  {
    if |s| == 0 then ""
    else if StartsBlank(s) then "\n\n" + Collapse(DropNewlines(s))
    else [s[0]] + Collapse(s[1..])
  }

  /**
   * Splitting loses nothing but the length of each separator: the pieces,
   * in order, joined by blank lines, give back the body with its separators
   * shortened.
   */
  lemma {:induction false} SplitJoinRoundTrip(s: string)
    ensures JoinBlank(Split(s)) == Collapse(s)
    decreases |s|
  {
    if |s| == 0 {
    } else if StartsBlank(s) {
      var rest := DropNewlines(s);
      SplitJoinRoundTrip(rest);
      JoinBlankConsEmpty(Split(rest));
    } else {
      var t := Split(s[1..]);
      SplitJoinRoundTrip(s[1..]);
      JoinBlankConsHead(s[0], t);
    }
  }

  /** An empty first piece leaves the text starting with a blank line. */
  lemma JoinBlankConsEmpty(t: seq<string>)
    requires |t| >= 1
    ensures JoinBlank([""] + t) == "\n\n" + JoinBlank(t)
  {
    assert ([""] + t)[1..] == t;
  }

  /** Gluing a character to the first piece glues it to the joined text. */
  lemma JoinBlankConsHead(c: char, t: seq<string>)
    requires |t| >= 1
    ensures JoinBlank([[c] + t[0]] + t[1..]) == [c] + JoinBlank(t)
  {
    var u := [[c] + t[0]] + t[1..];
    assert u[0] == [c] + t[0] && u[1..] == t[1..] && |u| == |t|;
    if |t| > 1 {
      var rest := "\n\n" + JoinBlank(t[1..]);
      Assoc([c], t[0], rest);
    }
  }

  /** Concatenation is associative. */
  lemma Assoc<T>(a: seq<T>, b: seq<T>, c: seq<T>)
    ensures a + b + c == a + (b + c)
  {
  }
}
