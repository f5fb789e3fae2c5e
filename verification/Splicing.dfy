// Replacing a span of the working file content with a rewrite, as processFile
// does with `substring(0, start) + code + substring(end)`, and what a whole
// series of such replacements amounts to.
module Splicing {

  function Min(a: nat, b: nat): nat
  {
    if a <= b then a else b
  }

  /** `s.substring(0, start) + code + s.substring(end)`; `substring` clamps offsets past the end. */
  function Splice(s: string, start: nat, end: nat, code: string): string
  {
    s[..Min(start, |s|)] + code + s[Min(end, |s|)..]
  }

  /** On a span inside the content, a splice keeps everything before the span, puts the code in
      its place, keeps everything after it, and changes the length by |code| - (end - start). */
  lemma SpliceSpec(s: string, start: nat, end: nat, code: string)
    requires start <= end <= |s|
    ensures var r := Splice(s, start, end, code);
      && |r| == |s| + |code| - (end - start)
      && r[..start] == s[..start]
      && r[start..start + |code|] == code
      && r[start + |code|..] == s[end..]
  {
    var r := Splice(s, start, end, code);
    assert r == s[..start] + code + s[end..];
    assert r[..start] == s[..start];
    assert r[start..start + |code|] == code;
    assert r[start + |code|..] == s[end..];
  }

  /** A span that starts past the end of the content appends the code. */
  lemma SplicePastEnd(s: string, start: nat, end: nat, code: string)
    requires |s| <= start && |s| <= end
    ensures Splice(s, start, end, code) == s + code
  {
    assert s[|s|..] == [];
  }

  /** One accepted rewrite: the span [start, end) it replaces and the new code. */
  datatype Edit = Edit(start: nat, end: nat, code: string)

  /** The edits in the order processFile applies them, each to the result of the previous one. */
  function ApplyEdits(s: string, edits: seq<Edit>): string
    decreases |edits|
  {
    if edits == [] then s
    else ApplyEdits(Splice(s, edits[0].start, edits[0].end, edits[0].code), edits[1..])
  }

  /** Each edit's span is well formed and ends before the previous edit's span starts: the spans
      do not overlap and come in descending order. */
  ghost predicate Descending(edits: seq<Edit>)
  {
    (forall i | 0 <= i < |edits| :: edits[i].start <= edits[i].end) &&
    (forall i, j | 0 <= i < j < |edits| :: edits[j].end <= edits[i].start)
  }

  /** Spans in ascending order, none starting before `pos`, none reaching past `n`. */
  ghost predicate Ascending(edits: seq<Edit>, pos: nat, n: nat)
    decreases |edits|
  {
    if edits == [] then pos <= n
    else pos <= edits[0].start <= edits[0].end <= n && Ascending(edits[1..], edits[0].end, n)
  }

  function Reverse(edits: seq<Edit>): seq<Edit>
  {
    if edits == [] then [] else Reverse(edits[1..]) + [edits[0]]
  }

  /** The reference: build the result left to right from the ORIGINAL content, copying the text
      between spans and putting each span's code in place of the span. No offset is ever adjusted. */
  function Assemble(s: string, pos: nat, asc: seq<Edit>): string
    requires Ascending(asc, pos, |s|)
    decreases |asc|
  {
    if asc == [] then s[pos..]
    else s[pos..asc[0].start] + asc[0].code + Assemble(s, asc[0].end, asc[1..])
  }

  lemma {:induction false} AscendingSnoc(asc: seq<Edit>, e: Edit, pos: nat, n: nat)
    requires Ascending(asc, pos, e.start) && e.start <= e.end <= n
    ensures Ascending(asc + [e], pos, n)
    decreases |asc|
  {
    if asc == [] {
      assert asc + [e] == [e];
      assert [e][1..] == [];
    } else {
      assert (asc + [e])[1..] == asc[1..] + [e];
      AscendingSnoc(asc[1..], e, asc[0].end, n);
    }
  }

  lemma {:induction false} AscendingPrefix(asc: seq<Edit>, e: Edit, pos: nat, n: nat)
    requires Ascending(asc + [e], pos, n)
    ensures Ascending(asc, pos, e.start) && e.start <= e.end <= n
    decreases |asc|
  {
    if asc == [] {
      assert asc + [e] == [e];
    } else {
      assert (asc + [e])[1..] == asc[1..] + [e];
      AscendingPrefix(asc[1..], e, asc[0].end, n);
    }
  }

  /** Descending spans inside the content, read backwards, are ascending. */
  lemma {:induction false} ReverseAscending(edits: seq<Edit>, n: nat)
    requires Descending(edits) && (edits == [] || edits[0].end <= n)
    ensures Ascending(Reverse(edits), 0, n)
    decreases |edits|
  {
    if edits != [] {
      var e := edits[0];
      var rest := edits[1..];
      assert Descending(rest);
      ReverseAscending(rest, e.start);
      AscendingSnoc(Reverse(rest), e, 0, n);
    }
  }

  /** A splice inside the prefix does not see the suffix. */
  lemma SpliceInPrefix(p: string, q: string, e: Edit)
    requires e.start <= e.end <= |p|
    ensures Splice(p + q, e.start, e.end, e.code) == Splice(p, e.start, e.end, e.code) + q
  {
    assert (p + q)[..e.start] == p[..e.start];
    assert (p + q)[e.end..] == p[e.end..] + q;
  }

  /** Descending edits that all fall inside the prefix leave the suffix alone. */
  lemma {:induction false} ApplyInPrefix(p: string, q: string, edits: seq<Edit>)
    requires Descending(edits) && (edits == [] || edits[0].end <= |p|)
    ensures ApplyEdits(p + q, edits) == ApplyEdits(p, edits) + q
    decreases |edits|
  {
    if edits != [] {
      var e := edits[0];
      SpliceInPrefix(p, q, e);
      var p' := Splice(p, e.start, e.end, e.code);
      SpliceSpec(p, e.start, e.end, e.code);
      assert Descending(edits[1..]);
      assert (p' + q) == Splice(p + q, e.start, e.end, e.code);
      ApplyInPrefix(p', q, edits[1..]);
    }
  }

  lemma {:induction false} AssembleSnoc(s: string, pos: nat, asc: seq<Edit>, e: Edit)
    requires Ascending(asc + [e], pos, |s|)
    ensures Ascending(asc, pos, e.start) && e.start <= e.end <= |s|
    ensures Assemble(s, pos, asc + [e]) == Assemble(s[..e.start], pos, asc) + e.code + s[e.end..]
    decreases |asc|
  {
    AscendingPrefix(asc, e, pos, |s|);
    if asc == [] {
      assert asc + [e] == [e];
      assert [e][1..] == [];
      assert s[..e.start][pos..] == s[pos..e.start];
    } else {
      var a, t := asc[0], s[..e.start];
      assert (asc + [e])[1..] == asc[1..] + [e];
      AssembleSnoc(s, a.end, asc[1..], e);
      var rest' := Assemble(t, a.end, asc[1..]);
      assert Assemble(s, pos, asc + [e]) == s[pos..a.start] + a.code + (rest' + e.code + s[e.end..]) by {
        assert (asc + [e])[0] == a;
      }
      assert Assemble(t, pos, asc) == s[pos..a.start] + a.code + rest' by {
        assert t[pos..a.start] == s[pos..a.start];
      }
    }
  }

  /** Applying non-overlapping edits one after another, rightmost first, gives the same text as
      building the result in one pass over the original content: replacing from the back keeps
      every offset that is still to be used valid. */
  lemma {:induction false} SequentialEqualsReference(s: string, edits: seq<Edit>)
    requires Descending(edits) && (edits == [] || edits[0].end <= |s|)
    ensures Ascending(Reverse(edits), 0, |s|)
    ensures ApplyEdits(s, edits) == Assemble(s, 0, Reverse(edits))
    decreases |edits|
  {
    ReverseAscending(edits, |s|);
    if edits != [] {
      var e := edits[0];
      var rest := edits[1..];
      assert Descending(rest);
      var p := s[..e.start];
      assert s == p + s[e.start..];
      assert Splice(s, e.start, e.end, e.code) == p + (e.code + s[e.end..]);
      ApplyInPrefix(p, e.code + s[e.end..], rest);
      SequentialEqualsReference(p, rest);
      AssembleSnoc(s, 0, Reverse(rest), e);
    }
  }
}
