/** The regular-expression subset the keyword table uses.  Every keyword
    pattern is a non-capturing alternation `(?:a1|a2|...)` of alternatives, and
    each alternative is a sequence of literal characters, `\s*` (any run of
    whitespace, possibly empty) and `c?` (an optional character; the table only
    writes `-?`).  `str.contains(pattern, regex=True)` asks whether the pattern
    matches anywhere in the text, i.e. `re.search`. */
module Patterns {
  import opened TextNorm

  datatype Token = Lit(c: char) | Spaces | Opt(c: char)

  type Alternative = seq<Token>

  type Pattern = seq<Alternative>

  /** The alternative made of the literal characters of `s`. */
  function L(s: string): (a: Alternative)
    ensures |a| == |s|
  {
    seq(|s|, i requires 0 <= i < |s| => Lit(s[i]))
  }

  /** The reference semantics: `w` is exactly one of the strings the
      alternative denotes. */
  predicate Spells(a: Alternative, w: string)
    decreases |a| + |w|
  {
    if a == [] then w == []
    else match a[0]
      case Lit(c) => w != [] && w[0] == c && Spells(a[1..], w[1..])
      case Opt(c) => (w != [] && w[0] == c && Spells(a[1..], w[1..])) || Spells(a[1..], w)
      case Spaces => Spells(a[1..], w) || (w != [] && IsSpace(w[0]) && Spells(a, w[1..]))
  }

  /** The matcher anchored at the start of `s`: some prefix of `s` is spelled
      by the alternative (the engine's attempt at one start position). */
  predicate MatchPrefix(a: Alternative, s: string)
    decreases |a| + |s|
  {
    if a == [] then true
    else match a[0]
      case Lit(c) => s != [] && s[0] == c && MatchPrefix(a[1..], s[1..])
      case Opt(c) => (s != [] && s[0] == c && MatchPrefix(a[1..], s[1..])) || MatchPrefix(a[1..], s)
      case Spaces => MatchPrefix(a[1..], s) || (s != [] && IsSpace(s[0]) && MatchPrefix(a, s[1..]))
  }

  /** `re.search(pattern, t) is not None`: some alternative matches at some
      start position. */
  predicate Matches(p: Pattern, t: string) {
    exists k, i :: 0 <= k < |p| && 0 <= i <= |t| && MatchPrefix(p[k], t[i..])
  }

  /** The reference meaning of a keyword hit: some string of some alternative
      occurs as a substring of the text. */
  ghost predicate Occurs(p: Pattern, t: string) {
    exists k, i, j :: 0 <= k < |p| && 0 <= i <= j <= |t| && Spells(p[k], t[i..j])
  }

  /** An anchored match ends somewhere: it spells a prefix. */
  lemma {:induction false} MatchPrefixSpells(a: Alternative, s: string) returns (j: nat)
    requires MatchPrefix(a, s)
    ensures j <= |s| && Spells(a, s[..j])
    decreases |a| + |s|
  {
    if a == [] {
      j := 0;
    } else {
      match a[0]
      case Lit(c) =>
        var j' := MatchPrefixSpells(a[1..], s[1..]);
        j := j' + 1;
        assert s[..j][1..] == s[1..][..j'];
      case Opt(c) =>
        if s != [] && s[0] == c && MatchPrefix(a[1..], s[1..]) {
          var j' := MatchPrefixSpells(a[1..], s[1..]);
          j := j' + 1;
          assert s[..j][1..] == s[1..][..j'];
        } else {
          j := MatchPrefixSpells(a[1..], s);
        }
      case Spaces =>
        if MatchPrefix(a[1..], s) {
          j := MatchPrefixSpells(a[1..], s);
        } else {
          var j' := MatchPrefixSpells(a, s[1..]);
          j := j' + 1;
          assert s[..j][1..] == s[1..][..j'];
        }
    }
  }

  /** A spelled prefix is found by the anchored matcher. */
  lemma {:induction false} SpellsMatchPrefix(a: Alternative, s: string, j: nat)
    requires j <= |s| && Spells(a, s[..j])
    ensures MatchPrefix(a, s)
    decreases |a| + |s|
  {
    if a != [] {
      var w := s[..j];
      match a[0]
      case Lit(c) =>
        assert w[1..] == s[1..][..j - 1];
        SpellsMatchPrefix(a[1..], s[1..], j - 1);
      case Opt(c) =>
        if w != [] && w[0] == c && Spells(a[1..], w[1..]) {
          assert w[1..] == s[1..][..j - 1];
          SpellsMatchPrefix(a[1..], s[1..], j - 1);
        } else {
          SpellsMatchPrefix(a[1..], s, j);
        }
      case Spaces =>
        if Spells(a[1..], w) {
          SpellsMatchPrefix(a[1..], s, j);
        } else {
          assert w[1..] == s[1..][..j - 1];
          SpellsMatchPrefix(a, s[1..], j - 1);
        }
    }
  }

  /** The search the pipeline runs finds a hit exactly when one occurs. */
  lemma MatchesIffOccurs(p: Pattern, t: string)
    ensures Matches(p, t) <==> Occurs(p, t)
  {
    if Matches(p, t) {
      var k, i :| 0 <= k < |p| && 0 <= i <= |t| && MatchPrefix(p[k], t[i..]);
      var j := MatchPrefixSpells(p[k], t[i..]);
      assert t[i..][..j] == t[i..i + j];
    }
    if Occurs(p, t) {
      var k, i, j :| 0 <= k < |p| && 0 <= i <= j <= |t| && Spells(p[k], t[i..j]);
      assert t[i..][..j - i] == t[i..j];
      SpellsMatchPrefix(p[k], t[i..], j - i);
    }
  }

  /** Every string an alternative spells contains each of its literal
      characters. */
  lemma {:induction false} SpellsHasLit(a: Alternative, w: string, c: char)
    requires Spells(a, w) && Lit(c) in a
    ensures c in w
    decreases |a| + |w|
  {
    match a[0]
    case Lit(d) =>
      if d != c {
        assert Lit(c) in a[1..];
        SpellsHasLit(a[1..], w[1..], c);
      }
    case Opt(d) =>
      assert Lit(c) in a[1..];
      if w != [] && w[0] == d && Spells(a[1..], w[1..]) {
        SpellsHasLit(a[1..], w[1..], c);
      } else {
        SpellsHasLit(a[1..], w, c);
      }
    case Spaces =>
      if Spells(a[1..], w) {
        assert Lit(c) in a[1..];
        SpellsHasLit(a[1..], w, c);
      } else {
        SpellsHasLit(a, w[1..], c);
      }
  }

  /** A pattern each of whose alternatives needs a character the text lacks
      has no hit in that text. */
  lemma NoHitWithoutLetter(p: Pattern, t: string)
    requires forall k :: 0 <= k < |p| ==> exists c :: Lit(c) in p[k] && c !in t
    ensures !Matches(p, t)
  {
    MatchesIffOccurs(p, t);
    if Occurs(p, t) {
      var k, i, j :| 0 <= k < |p| && 0 <= i <= j <= |t| && Spells(p[k], t[i..j]);
      var c :| Lit(c) in p[k] && c !in t;
      SpellsHasLit(p[k], t[i..j], c);
      assert false;
    }
  }

  /** The same, with the missing literal of alternative k named by its
      position `at[k]`. */
  lemma NoHitAt(p: Pattern, t: string, at: seq<nat>)
    requires |at| == |p|
    requires forall k :: 0 <= k < |p| ==> at[k] < |p[k]| && p[k][at[k]].Lit? && p[k][at[k]].c !in t
    ensures !Occurs(p, t)
  {
    forall k | 0 <= k < |p| ensures exists c :: Lit(c) in p[k] && c !in t {
      var d := p[k][at[k]].c;
      assert Lit(d) == p[k][at[k]];
      assert Lit(d) in p[k] && d !in t;
    }
    assert forall k :: 0 <= k < |p| ==> exists c :: Lit(c) in p[k] && c !in t;
    NoHitWithoutLetter(p, t);
    MatchesIffOccurs(p, t);
  }

  /** A literal alternative spells exactly its own text. */
  lemma {:induction false} LiteralSpells(s: string, w: string)
    ensures Spells(L(s), w) <==> w == s
    decreases |s|
  {
    if s != [] {
      assert L(s)[1..] == L(s[1..]);
      LiteralSpells(s[1..], if w == [] then w else w[1..]);
      if w != [] && w[0] == s[0] && w[1..] == s[1..] {
        assert w == [w[0]] + w[1..];
        assert s == [s[0]] + s[1..];
      }
    }
  }

  /** Literal characters in front spell themselves. */
  lemma {:induction false} LiteralThen(s: string, rest: Alternative, w: string)
    requires Spells(rest, w)
    ensures Spells(L(s) + rest, s + w)
    decreases |s|
  {
    if s == [] {
      assert L(s) + rest == rest && s + w == w;
    } else {
      assert (L(s) + rest)[1..] == L(s[1..]) + rest;
      assert (s + w)[1..] == s[1..] + w;
      LiteralThen(s[1..], rest, w);
    }
  }

  /** `a\s*b` spells `a`, one space, `b`. */
  lemma GapSpellsSpaced(a: string, b: string)
    ensures Spells(L(a) + [Spaces] + L(b), a + " " + b)
  {
    LiteralSpells(b, b);
    assert ([Spaces] + L(b))[1..] == L(b);
    assert (" " + b)[1..] == b;
    assert Spells([Spaces] + L(b), b);
    LiteralThen(a, [Spaces] + L(b), " " + b);
    assert L(a) + [Spaces] + L(b) == L(a) + ([Spaces] + L(b));
    assert a + " " + b == a + (" " + b);
  }
}
