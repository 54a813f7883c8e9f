/** The text normaliser `_norm`: a missing value becomes the empty string;
    anything else is stringified, lower-cased, and every run of whitespace is
    replaced by one space (`re.sub(r"\s+", " ", s)`).  Lower-casing is modelled
    at the ASCII level; whitespace is the set Python's `\s` matches in a str. */
module TextNorm {
  import opened Frames

  /** The characters Python's `\s` matches in a str pattern (those for which
      `str.isspace()` holds). */
  predicate IsSpace(c: char) {
    || c == ' '
    || '\t' <= c <= '\r'
    || '\U{1C}' <= c <= '\U{1F}'
    || c == '\U{85}' || c == '\U{A0}' || c == '\U{1680}'
    || '\U{2000}' <= c <= '\U{200A}'
    || c == '\U{2028}' || c == '\U{2029}' || c == '\U{202F}' || c == '\U{205F}'
    || c == '\U{3000}'
  }

  predicate IsUpper(c: char) {
    'A' <= c <= 'Z'
  }

  function LowerChar(c: char): (d: char)
    ensures IsUpper(c) ==> 'a' <= d <= 'z' && d as int - 'a' as int == c as int - 'A' as int
    ensures !IsUpper(d)
    ensures IsSpace(d) <==> IsSpace(c)
    ensures !IsUpper(c) ==> d == c
  {
    if IsUpper(c) then (c as int + 32) as char else c
  }

  /** `str.lower()`, character by character. */
  function Lower(s: string): (r: string) {
    seq(|s|, i requires 0 <= i < |s| => LowerChar(s[i]))
  }

  predicate NoUpper(s: string) {
    forall i :: 0 <= i < |s| ==> !IsUpper(s[i])
  }

  /** The shape `re.sub(r"\s+", " ", _)` leaves: every whitespace character is
      a plain space, and no two whitespace characters are adjacent. */
  predicate Collapsed(s: string) {
    && (forall i :: 0 <= i < |s| && IsSpace(s[i]) ==> s[i] == ' ')
    && (forall i :: 0 <= i < |s| - 1 && IsSpace(s[i]) ==> !IsSpace(s[i + 1]))
  }

  /** `s` with its leading whitespace removed. */
  function SkipSpaces(s: string): (r: string)
    ensures |r| <= |s| && r == s[|s| - |r|..]
    ensures r == [] || !IsSpace(r[0])
  {
    if s != [] && IsSpace(s[0]) then SkipSpaces(s[1..]) else s
  }

  /** `re.sub(r"\s+", " ", s)`: each maximal run of whitespace becomes one space. */
  function Collapse(s: string): (r: string)
    ensures r == [] <==> s == []
    ensures s != [] ==> (IsSpace(r[0]) <==> IsSpace(s[0]))
    ensures Collapsed(r)
    ensures NoUpper(s) ==> NoUpper(r)
    decreases |s|
  {
    if s == [] then []
    else if IsSpace(s[0]) then
      var t := Collapse(SkipSpaces(s[1..]));
      ConsCollapsed(' ', t);
      " " + t
    else
      var t := Collapse(s[1..]);
      ConsCollapsed(s[0], t);
      [s[0]] + t
  }

  /** `s` consists of whitespace only. */
  predicate AllSpace(s: string)
    decreases |s|
  {
    s == [] || (IsSpace(s[0]) && AllSpace(s[1..]))
  }

  lemma {:induction false} AllSpaceLast(s: string)
    requires s != [] && AllSpace(s)
    ensures IsSpace(s[|s| - 1])
    decreases |s|
  {
    if |s| > 1 {
      AllSpaceLast(s[1..]);
    }
  }

  /** The last character of a string of two or more is that of its tail. */
  lemma LastOfTail(a: string)
    requires |a| >= 2
    ensures a[1..][|a| - 2] == a[|a| - 1]
  {
  }

  /** Indexing into a concatenation whose first part is not empty. */
  lemma ConsAppend(a: string, b: string)
    requires a != []
    ensures (a + b)[0] == a[0] && (a + b)[1..] == a[1..] + b
  {
  }

  /** Leading whitespace of `a` that is all whitespace is skipped as a whole. */
  lemma {:induction false} SkipSpacesAllSpace(a: string, b: string)
    requires AllSpace(a)
    ensures SkipSpaces(a + b) == SkipSpaces(b)
    decreases |a|
  {
    if a != [] {
      ConsAppend(a, b);
      SkipSpacesAllSpace(a[1..], b);
    } else {
      assert a + b == b;
    }
  }

  /** A non-empty run of whitespace collapses to one space. */
  lemma CollapseRun(w: string)
    requires w != [] && AllSpace(w)
    ensures Collapse(w) == " "
  {
    SkipSpacesAllSpace(w[1..], []);
    assert w[1..] + [] == w[1..];
  }

  /** A character other than whitespace is kept as it is. */
  lemma CollapseOne(c: char)
    requires !IsSpace(c)
    ensures Collapse([c]) == [c]
  {
    assert [c][1..] == [];
  }

  /** One unfolding of Collapse on `a + b` when `a` starts with whitespace. */
  lemma CollapseSpaceHead(a: string, b: string)
    requires a != [] && IsSpace(a[0])
    ensures Collapse(a + b) == " " + Collapse(SkipSpaces(a[1..] + b))
    ensures Collapse(a) == " " + Collapse(SkipSpaces(a[1..]))
  {
    ConsAppend(a, b);
  }

  /** One unfolding of Collapse on `a + b` when `a` starts with another character. */
  lemma CollapseOtherHead(a: string, b: string)
    requires a != [] && !IsSpace(a[0])
    ensures Collapse(a + b) == [a[0]] + Collapse(a[1..] + b)
    ensures Collapse(a) == [a[0]] + Collapse(a[1..])
  {
    ConsAppend(a, b);
  }

  /** Collapsing works piece by piece, as long as the cut does not split a
      whitespace run: with this and CollapseRun the result of `Collapse` is
      fixed, each run replaced by one space where it stood. */
  lemma {:induction false} CollapseAppend(a: string, b: string)
    requires a == [] || b == [] || !IsSpace(a[|a| - 1]) || !IsSpace(b[0])
    ensures Collapse(a + b) == Collapse(a) + Collapse(b)
    decreases |a|, 1
  {
    if a == [] {
      assert a + b == b;
    } else if !IsSpace(a[0]) {
      CollapseAppendOther(a, b);
    } else if !AllSpace(a[1..]) {
      CollapseAppendSpace(a, b);
    } else {
      CollapseAppendRun(a, b);
    }
  }

  /** CollapseAppend when `a` starts with a character other than whitespace. */
  lemma {:induction false} CollapseAppendOther(a: string, b: string)
    requires a != [] && !IsSpace(a[0])
    requires b == [] || !IsSpace(a[|a| - 1]) || !IsSpace(b[0])
    ensures Collapse(a + b) == Collapse(a) + Collapse(b)
    decreases |a|, 0
  {
    var rest := a[1..];
    if rest != [] {
      LastOfTail(a);
    }
    CollapseAppend(rest, b);
    CollapseConsOther(a, b);
  }

  /** A leading character other than whitespace keeps CollapseAppend holding. */
  lemma CollapseConsOther(a: string, b: string)
    requires a != [] && !IsSpace(a[0])
    requires Collapse(a[1..] + b) == Collapse(a[1..]) + Collapse(b)
    ensures Collapse(a + b) == Collapse(a) + Collapse(b)
  {
    CollapseOtherHead(a, b);
    PrefixAppend([a[0]], Collapse(a + b), Collapse(a[1..]), Collapse(b));
  }

  /** Of two leading whitespace characters, the first adds nothing. */
  lemma CollapseDropSpace(x: string)
    requires |x| >= 2 && IsSpace(x[0]) && IsSpace(x[1])
    ensures Collapse(x) == Collapse(x[1..])
  {
    assert x[1..][0] == x[1] && x[1..][1..] == x[2..];
  }

  /** A single leading whitespace character becomes one space. */
  lemma CollapseSpaceThen(x: string)
    requires |x| >= 2 && IsSpace(x[0]) && !IsSpace(x[1])
    ensures Collapse(x) == " " + Collapse(x[1..])
  {
    assert x[1..][0] == x[1];
  }

  /** CollapseAppend when `a` starts with whitespace and holds something else too. */
  lemma {:induction false} CollapseAppendSpace(a: string, b: string)
    requires a != [] && IsSpace(a[0]) && !AllSpace(a[1..])
    requires b == [] || !IsSpace(a[|a| - 1]) || !IsSpace(b[0])
    ensures Collapse(a + b) == Collapse(a) + Collapse(b)
    decreases |a|, 0
  {
    var rest := a[1..];
    LastOfTail(a);
    CollapseAppend(rest, b);
    CollapseConsSpace(a, b);
  }

  /** A leading whitespace character keeps CollapseAppend holding. */
  lemma CollapseConsSpace(a: string, b: string)
    requires |a| >= 2 && IsSpace(a[0])
    requires Collapse(a[1..] + b) == Collapse(a[1..]) + Collapse(b)
    ensures Collapse(a + b) == Collapse(a) + Collapse(b)
  {
    var rest := a[1..];
    ConsAppend(a, b);
    ConsAppend(a[1..], b);
    if IsSpace(a[1]) {
      CollapseConsDropped(a, b, rest);
    } else {
      CollapseConsKept(a, b, rest);
    }
  }

  lemma CollapseConsDropped(a: string, b: string, rest: string)
    requires |a| >= 2 && IsSpace(a[0]) && IsSpace(a[1]) && rest == a[1..]
    requires (a + b)[0] == a[0] && (a + b)[1] == a[1] && (a + b)[1..] == rest + b
    requires Collapse(rest + b) == Collapse(rest) + Collapse(b)
    ensures Collapse(a + b) == Collapse(a) + Collapse(b)
  {
    CollapseDropSpace(a + b);
    CollapseDropSpace(a);
  }

  lemma CollapseConsKept(a: string, b: string, rest: string)
    requires |a| >= 2 && IsSpace(a[0]) && !IsSpace(a[1]) && rest == a[1..]
    requires (a + b)[0] == a[0] && (a + b)[1] == a[1] && (a + b)[1..] == rest + b
    requires Collapse(rest + b) == Collapse(rest) + Collapse(b)
    ensures Collapse(a + b) == Collapse(a) + Collapse(b)
  {
    CollapseSpaceThen(a + b);
    CollapseSpaceThen(a);
    PrefixAppend(" ", Collapse(a + b), Collapse(rest), Collapse(b));
  }

  /** Plain sequence algebra, kept apart from Collapse so that the step
      above needs no reasoning about the characters involved. */
  lemma PrefixAppend(c: string, x: string, p: string, q: string)
    requires x == c + (p + q)
    ensures x == (c + p) + q
  {
  }

  /** CollapseAppend when `a` is one whitespace run. */
  lemma CollapseAppendRun(a: string, b: string)
    requires a != [] && IsSpace(a[0]) && AllSpace(a[1..])
    requires b == [] || !IsSpace(a[|a| - 1]) || !IsSpace(b[0])
    ensures Collapse(a + b) == Collapse(a) + Collapse(b)
  {
    var rest := a[1..];
    if rest != [] {
      AllSpaceLast(rest);
      LastOfTail(a);
    }
    assert b == [] || !IsSpace(b[0]);
    assert SkipSpaces(b) == b;
    SkipSpacesAllSpace(rest, b);
    SkipSpacesAllSpace(rest, []);
    assert rest + [] == rest;
    assert SkipSpaces(rest) == [];
    CollapseSpaceHead(a, b);
    assert Collapse(a) == " ";
    assert Collapse(a + b) == " " + Collapse(b);
  }

  lemma ConsCollapsed(c: char, t: string)
    requires Collapsed(t)
    requires IsSpace(c) ==> c == ' ' && (t == [] || !IsSpace(t[0]))
    ensures Collapsed([c] + t)
  {
    var r := [c] + t;
    forall i | 0 <= i < |r| - 1 && IsSpace(r[i]) ensures !IsSpace(r[i + 1]) {
      if i > 0 {
        assert r[i] == t[i - 1] && r[i + 1] == t[i];
      }
    }
  }

  /** `_norm` on a string: lower-case, then collapse whitespace. */
  function NormString(s: string): string {
    Collapse(Lower(s))
  }

  function DigitChar(d: nat): char
    requires d < 10
  {
    "0123456789"[d]
  }

  function Digits(n: nat): string
    decreases n
  {
    if n < 10 then [DigitChar(n)] else Digits(n / 10) + [DigitChar(n % 10)]
  }

  /** `str(v)` of a non-missing cell: a string is itself, an integer its decimal form. */
  function Stringify(v: Value): string {
    match v
    case Null => ""
    case Text(s) => s
    case Number(n) => if n < 0 then "-" + Digits(-n) else Digits(n)
  }

  /** `_norm(v)`.  Here `Null` stands for Python's `None`, the only value
      `_norm` maps to "".  A float NaN would come out as "nan", but no NaN
      reaches `_norm` in the pipeline: `_merge_text` applies `fillna("")`
      to every column before joining. */
  function Norm(v: Value): (r: string)
    ensures v == Null ==> r == ""
    ensures NoUpper(r) && Collapsed(r)
  {
    if v == Null then "" else NormString(Stringify(v))
  }

  lemma LowerNoUpper(s: string)
    ensures NoUpper(Lower(s))
  {
  }

  lemma LowerFixed(s: string)
    requires NoUpper(s)
    ensures Lower(s) == s
  {
  }

  /** A string already in collapsed shape is left alone by the substitution. */
  lemma {:induction false} CollapseFixed(s: string)
    requires Collapsed(s)
    ensures Collapse(s) == s
    decreases |s|
  {
    if s != [] {
      if IsSpace(s[0]) {
        assert s[0] == ' ';
        assert SkipSpaces(s[1..]) == s[1..];
      }
      CollapseFixed(s[1..]);
    }
  }

  /** The substitution changes a string exactly when it has a whitespace run
      other than a single plain space. */
  lemma CollapseFixedIff(s: string)
    ensures Collapse(s) == s <==> Collapsed(s)
  {
    if Collapsed(s) {
      CollapseFixed(s);
    }
  }

  /** `_norm` is idempotent. */
  lemma NormIdempotent(s: string)
    ensures NormString(NormString(s)) == NormString(s)
  {
    var t := NormString(s);
    LowerNoUpper(s);
    LowerFixed(t);
    CollapseFixed(t);
  }

  /** A string is its own normal form exactly when it has no upper-case letter
      and is already in collapsed shape. */
  lemma NormFixedIff(s: string)
    ensures NormString(s) == s <==> NoUpper(s) && Collapsed(s)
  {
    LowerNoUpper(s);
    if NoUpper(s) && Collapsed(s) {
      LowerFixed(s);
      CollapseFixed(s);
    }
  }

  /** The non-whitespace characters of a string, in order. */
  function Visible(s: string): string {
    if s == [] then [] else (if IsSpace(s[0]) then [] else [s[0]]) + Visible(s[1..])
  }

  lemma {:induction false} VisibleAppend(a: string, b: string)
    ensures Visible(a + b) == Visible(a) + Visible(b)
    decreases |a|
  {
    if a == [] {
      assert a + b == b;
    } else {
      assert (a + b)[0] == a[0];
      assert (a + b)[1..] == a[1..] + b;
      VisibleAppend(a[1..], b);
    }
  }

  lemma {:induction false} VisibleSkipSpaces(s: string)
    ensures Visible(SkipSpaces(s)) == Visible(s)
    decreases |s|
  {
    if s != [] && IsSpace(s[0]) {
      VisibleSkipSpaces(s[1..]);
    }
  }

  /** The substitution keeps every non-whitespace character, in order. */
  lemma {:induction false} CollapseKeepsVisible(s: string)
    ensures Visible(Collapse(s)) == Visible(s)
    decreases |s|
  {
    if s != [] {
      if IsSpace(s[0]) {
        VisibleAppend(" ", Collapse(SkipSpaces(s[1..])));
        CollapseKeepsVisible(SkipSpaces(s[1..]));
        VisibleSkipSpaces(s[1..]);
      } else {
        VisibleAppend([s[0]], Collapse(s[1..]));
        CollapseKeepsVisible(s[1..]);
      }
    }
  }

  lemma {:induction false} VisibleLower(s: string)
    ensures Visible(Lower(s)) == Lower(Visible(s))
    decreases |s|
  {
    if s != [] {
      assert Lower(s)[1..] == Lower(s[1..]);
      VisibleLower(s[1..]);
      assert Lower(Visible(s)) == Lower((if IsSpace(s[0]) then [] else [s[0]]) + Visible(s[1..]));
    }
  }

  /** Normalisation loses no visible character: what remains once whitespace
      is removed is the lower-cased visible text of the input. */
  lemma NormKeepsVisible(s: string)
    ensures Visible(NormString(s)) == Lower(Visible(s))
  {
    CollapseKeepsVisible(Lower(s));
    VisibleLower(s);
  }
}
