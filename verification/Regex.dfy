// The fragment of JavaScript regular expressions that the anti-pattern table
// uses, with the meaning of `RegExp.prototype.test`: does the pattern match
// anywhere in the string? A pattern is a sequence of atoms; matching is the
// set of all ways the atoms can consume consecutive characters, which is what
// a backtracking engine explores.
module Regex {
  import opened JsText

  datatype CharClass = Space | Word   // `\s`, `\w`

  datatype Atom =
    | Lit(text: string)          // a literal run of characters
    | AnyOf(alts: seq<string>)   // `(a|b|...)` over literal alternatives, or `['"]`
    | One(cls: CharClass)        // exactly one character of the class
    | Many(cls: CharClass)       // `\s*` / `\w*`: zero or more of the class
    | WordBoundary               // `\b`
    | AtLeast(n: nat)            // `[\s\S]{n,}`: at least n arbitrary characters

  type Pattern = seq<Atom>

  predicate InClass(cls: CharClass, c: char)
  {
    match cls
    case Space => IsWs(c)
    case Word => IsWordChar(c)
  }

  /** `\b` at offset i: exactly one side of the offset is a word character. */
  predicate IsBoundary(s: string, i: nat)
    requires i <= |s|
  {
    (i > 0 && IsWordChar(s[i - 1])) != (i < |s| && IsWordChar(s[i]))
  }

  /** The atoms of `p` can match a stretch of `s` starting at offset `i`. */
  predicate MatchAt(p: Pattern, s: string, i: nat)
    requires i <= |s|
    decreases |s| - i, |p|
  {
    if p == [] then true
    else
      match p[0]
      case Lit(t) =>
        HasPrefixAt(s, i, t) && MatchAt(p[1..], s, i + |t|)
      case AnyOf(ts) =>
        exists k | 0 <= k < |ts| :: HasPrefixAt(s, i, ts[k]) && MatchAt(p[1..], s, i + |ts[k]|)
      case One(c) =>
        i < |s| && InClass(c, s[i]) && MatchAt(p[1..], s, i + 1)
      case Many(c) =>
        MatchAt(p[1..], s, i) || (i < |s| && InClass(c, s[i]) && MatchAt(p, s, i + 1))
      case WordBoundary =>
        IsBoundary(s, i) && MatchAt(p[1..], s, i)
      case AtLeast(n) =>
        if n == 0 then MatchAt(p[1..], s, i) || (i < |s| && MatchAt(p, s, i + 1))
        else i < |s| && MatchAt([AtLeast(n - 1)] + p[1..], s, i + 1)
  }

  /** `pattern.test(s)` for a pattern without flags: a match starts at some offset. */
  predicate Test(p: Pattern, s: string)
  {
    exists i | 0 <= i <= |s| :: MatchAt(p, s, i)
  }

  /** A pattern made of one literal followed by `\s*` and another literal matches
      wherever the two literals are adjacent (the case `\.name\s*\(` relies on). */
  lemma {:induction false} LitThenLit(s: string, i: nat, a: string, b: string)
    requires HasPrefixAt(s, i, a + b)
    ensures Test([Lit(a), Many(Space), Lit(b)], s)
  {
    var p := [Lit(a), Many(Space), Lit(b)];
    assert s[i..i + |a|] == (a + b)[..|a|] == a;
    assert s[i + |a|..i + |a| + |b|] == (a + b)[|a|..] == b;
    assert MatchAt([], s, i + |a| + |b|);
    assert MatchAt(p[2..], s, i + |a|);
    assert MatchAt(p[1..], s, i + |a|);
    assert MatchAt(p, s, i);
  }
}
