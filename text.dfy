/**
  String operations the loader relies on, with the JavaScript semantics the
  loader uses: `String.prototype.split` on a one-character separator,
  `Array.prototype.join`, a global literal `replace`, and the relational
  operators `<=` on two strings (code-unit lexicographic order).
 */
module Text {

  predicate IsDigit(c: char) { '0' <= c <= '9' }

  /** Every character is an ASCII digit (the empty string included). */
  predicate AllDigits(s: string) {
    forall i :: 0 <= i < |s| ==> IsDigit(s[i])
  }

  /** `s == parseInt(s)` for a version part: a non-empty run of digits. */
  predicate IsIntText(s: string) {
    |s| > 0 && AllDigits(s)
  }

  /** The character class `[a-zA-Z\-]` of the `invalid` pattern in `gloader.map`. */
  predicate IsInvalidVersionChar(c: char) {
    ('a' <= c <= 'z') || ('A' <= c <= 'Z') || c == '-'
  }

  predicate HasInvalidVersionChar(s: string) {
    exists i :: 0 <= i < |s| && IsInvalidVersionChar(s[i])
  }

  /** `s.split(sep)`: the pieces between separators, at least one. */
  function Split(s: string, sep: char): (parts: seq<string>)
    ensures |parts| >= 1
    ensures forall k :: 0 <= k < |parts| ==> sep !in parts[k]
    ensures Join(parts, sep) == s
    decreases |s|
  {
    if |s| == 0 then [""]
    else
      var rest := Split(s[1..], sep);
      if s[0] == sep then [""] + rest
      else
        assert sep !in [s[0]] + rest[0];
        [[s[0]] + rest[0]] + rest[1..]
  }

  /** `parts.join(sep)`. */
  function Join(parts: seq<string>, sep: char): string
    decreases |parts|
  {
    if |parts| == 0 then ""
    else if |parts| == 1 then parts[0]
    else parts[0] + [sep] + Join(parts[1..], sep)
  }

  lemma {:induction false} SplitPrefix(a: string, b: string, sep: char)
    requires sep !in a
    ensures Split(a + [sep] + b, sep) == [a] + Split(b, sep)
    decreases |a|
  {
    if |a| == 0 {
      assert a + [sep] + b == [sep] + b;
      assert ([sep] + b)[1..] == b;
    } else {
      var s := a + [sep] + b;
      assert s[0] == a[0] && s[1..] == a[1..] + [sep] + b;
      SplitPrefix(a[1..], b, sep);
      assert [a[0]] + a[1..] == a;
    }
  }

  lemma {:induction false} SplitNoSep(a: string, sep: char)
    requires sep !in a
    ensures Split(a, sep) == [a]
    decreases |a|
  {
    if |a| > 0 {
      SplitNoSep(a[1..], sep);
      assert [a[0]] + a[1..] == a;
    }
  }

  /** Joining pieces that hold no separator and splitting again gives the pieces back. */
  lemma {:induction false} SplitJoin(parts: seq<string>, sep: char)
    requires |parts| >= 1
    requires forall k :: 0 <= k < |parts| ==> sep !in parts[k]
    ensures Split(Join(parts, sep), sep) == parts
    decreases |parts|
  {
    if |parts| == 1 {
      SplitNoSep(parts[0], sep);
    } else {
      SplitJoin(parts[1..], sep);
      SplitPrefix(parts[0], Join(parts[1..], sep), sep);
      assert [parts[0]] + parts[1..] == parts;
    }
  }

  /** A module id `a/b/c` splits back into its three segments. */
  lemma SplitThree(a: string, b: string, c: string, sep: char)
    requires sep !in a && sep !in b && sep !in c
    ensures Split(a + [sep] + b + [sep] + c, sep) == [a, b, c]
  {
    assert a + [sep] + b + [sep] + c == a + [sep] + (b + [sep] + c);
    SplitPrefix(a, b + [sep] + c, sep);
    SplitPrefix(b, c, sep);
    SplitNoSep(c, sep);
  }

  /** JavaScript `x <= y` on two strings. */
  predicate LexLe(x: string, y: string)
    decreases |x|
  {
    if |x| == 0 then true
    else if |y| == 0 then false
    else if x[0] < y[0] then true
    else if x[0] > y[0] then false
    else LexLe(x[1..], y[1..])
  }

  lemma {:induction false} LexLeTotal(x: string, y: string)
    ensures LexLe(x, y) || LexLe(y, x)
    decreases |x|
  {
    if |x| > 0 && |y| > 0 && x[0] == y[0] {
      LexLeTotal(x[1..], y[1..]);
    }
  }

  lemma {:induction false} LexLeTrans(x: string, y: string, z: string)
    requires LexLe(x, y) && LexLe(y, z)
    ensures LexLe(x, z)
    decreases |x|
  {
    if |x| > 0 && |y| > 0 && |z| > 0 && x[0] == y[0] && y[0] == z[0] {
      LexLeTrans(x[1..], y[1..], z[1..]);
    }
  }

  lemma {:induction false} LexLeRefl(x: string)
    ensures LexLe(x, x)
    decreases |x|
  {
    if |x| > 0 { LexLeRefl(x[1..]); }
  }

  /** `s.replace(/pat/g, r)` for a literal pattern: leftmost, non-overlapping. */
  function ReplaceAll(s: string, pat: string, r: string): string
    requires |pat| > 0
    decreases |s|
  {
    if |s| < |pat| then s
    else if s[..|pat|] == pat then r + ReplaceAll(s[|pat|..], pat, r)
    else [s[0]] + ReplaceAll(s[1..], pat, r)
  }

  /** The placeholder `{name}` that `parse` turns into a pattern. */
  function Placeholder(name: string): string { "{" + name + "}" }

  /** A string viewed as literal text and `{name}` placeholders. */
  datatype Piece = Lit(text: string) | Hole(name: string)

  function Render(t: seq<Piece>): string
    decreases |t|
  {
    if |t| == 0 then ""
    else (match t[0] case Lit(x) => x case Hole(n) => Placeholder(n)) + Render(t[1..])
  }

  /** The template with every `{name}` hole replaced by `value`. */
  function Fill(t: seq<Piece>, name: string, value: string): (f: seq<Piece>)
    ensures |f| == |t|
    decreases |t|
  {
    if |t| == 0 then []
    else [if t[0] == Hole(name) then Lit(value) else t[0]] + Fill(t[1..], name, value)
  }

  predicate NoBrace(s: string) { '{' !in s && '}' !in s }

  /** Literal text never opens a placeholder. */
  predicate WellFormed(t: seq<Piece>) {
    forall k :: 0 <= k < |t| ==>
      match t[k] case Lit(x) => '{' !in x case Hole(n) => NoBrace(n)
  }

  lemma {:induction false} ReplaceSkipsText(a: string, b: string, pat: string, r: string)
    requires |pat| > 0 && pat[0] == '{' && '{' !in a
    ensures ReplaceAll(a + b, pat, r) == a + ReplaceAll(b, pat, r)
    decreases |a|
  {
    if |a| > 0 {
      var s := a + b;
      assert s[0] == a[0] && s[1..] == a[1..] + b;
      if |s| < |pat| {
        ShortUnchanged(b, pat, r);
        ShortUnchanged(s, pat, r);
      } else {
        assert s[..|pat|] != pat by {
          assert s[..|pat|][0] == a[0] && a[0] != '{';
        }
        assert ReplaceAll(s, pat, r) == [s[0]] + ReplaceAll(s[1..], pat, r);
        ReplaceSkipsText(a[1..], b, pat, r);
        assert [a[0]] + (a[1..] + ReplaceAll(b, pat, r)) == a + ReplaceAll(b, pat, r);
      }
    } else {
      assert a + b == b;
    }
  }

  lemma {:induction false} ShortUnchanged(s: string, pat: string, r: string)
    requires 0 < |pat| && |s| < |pat|
    ensures ReplaceAll(s, pat, r) == s
  {
  }

  lemma PlaceholderAt(n: string)
    ensures |Placeholder(n)| == |n| + 2
    ensures Placeholder(n)[0] == '{' && Placeholder(n)[|n| + 1] == '}'
    ensures forall i :: 0 <= i < |n| ==> Placeholder(n)[i + 1] == n[i]
  {
  }

  /** `{q}` does not start with `{name}` when the names differ. */
  lemma PlaceholderMismatch(q: string, name: string, s: string)
    requires NoBrace(q) && NoBrace(name) && q != name
    requires |s| >= |Placeholder(name)| && |s| >= |q| + 2 && s[..|q| + 2] == Placeholder(q)
    ensures s[..|Placeholder(name)|] != Placeholder(name)
  {
    var pat := Placeholder(name);
    var p := Placeholder(q);
    PlaceholderAt(q);
    PlaceholderAt(name);
    if |q| < |name| {
      assert s[|q| + 1] == p[|q| + 1] == '}';
      assert pat[|q| + 1] == name[|q|];
      assert s[..|pat|][|q| + 1] != pat[|q| + 1];
    } else if |q| > |name| {
      assert s[|name| + 1] == p[|name| + 1] == q[|name|];
      assert s[..|pat|][|name| + 1] != pat[|name| + 1];
    } else {
      assert !(forall i :: 0 <= i < |q| ==> q[i] == name[i]);
      var i :| 0 <= i < |q| && q[i] != name[i];
      assert s[i + 1] == p[i + 1] == q[i];
      assert s[..|pat|][i + 1] != pat[i + 1];
    }
  }

  /** A different placeholder is not mistaken for `{name}`. */
  lemma OtherHoleSkipped(q: string, name: string, rest: string, r: string)
    requires NoBrace(q) && NoBrace(name) && q != name
    ensures ReplaceAll(Placeholder(q) + rest, Placeholder(name), r) == Placeholder(q) + ReplaceAll(rest, Placeholder(name), r)
  {
    var pat := Placeholder(name);
    var s := Placeholder(q) + rest;
    if |s| >= |pat| {
      OtherHoleLong(q, name, rest, r);
    } else {
      ShortUnchanged(s, pat, r);
      ShortUnchanged(rest, pat, r);
    }
  }

  lemma OtherHoleLong(q: string, name: string, rest: string, r: string)
    requires NoBrace(q) && NoBrace(name) && q != name
    requires |Placeholder(q) + rest| >= |Placeholder(name)|
    ensures ReplaceAll(Placeholder(q) + rest, Placeholder(name), r) == Placeholder(q) + ReplaceAll(rest, Placeholder(name), r)
  {
    var pat := Placeholder(name);
    var tail := q + "}";
    OtherHoleHead(q, name, rest, r);
    ReplaceSkipsText(tail, rest, pat, r);
    var x := ReplaceAll(rest, pat, r);
    assert Placeholder(q) == "{" + tail;
    assert "{" + (tail + x) == ("{" + tail) + x;
  }

  /** `{q}` does not start with `{name}`, so the replacement keeps its brace and moves on. */
  lemma OtherHoleHead(q: string, name: string, rest: string, r: string)
    requires NoBrace(q) && NoBrace(name) && q != name
    requires |Placeholder(q) + rest| >= |Placeholder(name)|
    ensures ReplaceAll(Placeholder(q) + rest, Placeholder(name), r) == "{" + ReplaceAll((q + "}") + rest, Placeholder(name), r)
  {
    var pat := Placeholder(name);
    var p := Placeholder(q);
    var s := p + rest;
    PlaceholderAt(q);
    assert p == "{" + (q + "}");
    assert s[..|q| + 2] == p;
    PlaceholderMismatch(q, name, s);
    assert s == "{" + ((q + "}") + rest);
    assert s[1..] == (q + "}") + rest;
  }

  /** Replacing `{name}` in a rendered template fills exactly its `name` holes. */
  lemma {:induction false} ReplaceFills(t: seq<Piece>, name: string, value: string)
    requires WellFormed(t) && NoBrace(name)
    ensures ReplaceAll(Render(t), Placeholder(name), value) == Render(Fill(t, name, value))
    decreases |t|
  {
    var pat := Placeholder(name);
    if |t| == 0 {
      ShortUnchanged("", pat, value);
    } else {
      assert WellFormed(t[1..]) by {
        forall k | 0 <= k < |t[1..]| ensures match t[1..][k] case Lit(x) => '{' !in x case Hole(n) => NoBrace(n) {
          assert t[1..][k] == t[k + 1];
        }
      }
      ReplaceFills(t[1..], name, value);
      var rest := Render(t[1..]);
      assert Fill(t, name, value)[1..] == Fill(t[1..], name, value);
      match t[0]
      case Lit(x) =>
        assert '{' !in x by { assert WellFormed(t); assert t[0] == Lit(x); }
        ReplaceSkipsText(x, rest, pat, value);
      case Hole(q) =>
        assert NoBrace(q) by { assert WellFormed(t); assert t[0] == Hole(q); }
        if q == name {
          var s := pat + rest;
          assert s[..|pat|] == pat && s[|pat|..] == rest;
        } else {
          OtherHoleSkipped(q, name, rest, value);
        }
    }
  }

  /** Placeholder names and the values substituted for them, in interpolation order. */
  function InterpolateAll(s: string, props: seq<(string, string)>): string
    decreases |props|
  {
    if |props| == 0 then s
    else InterpolateAll(ReplaceAll(s, Placeholder(props[0].0), props[0].1), props[1..])
  }

  /** Interpolating one more property after the others is one more replacement. */
  lemma {:induction false} InterpolateSnoc(s: string, props: seq<(string, string)>, x: (string, string))
    ensures InterpolateAll(s, props + [x]) == ReplaceAll(InterpolateAll(s, props), Placeholder(x.0), x.1)
    decreases |props|
  {
    if |props| > 0 {
      assert (props + [x])[1..] == props[1..] + [x];
      InterpolateSnoc(ReplaceAll(s, Placeholder(props[0].0), props[0].1), props[1..], x);
    }
  }

  predicate HolesNamed(t: seq<Piece>, names: set<string>) {
    forall k :: 0 <= k < |t| ==> t[k].Hole? ==> t[k].name in names
  }

  lemma {:induction false} RenderNoOpen(t: seq<Piece>)
    requires forall k :: 0 <= k < |t| ==> t[k].Lit? && '{' !in t[k].text
    ensures '{' !in Render(t)
    decreases |t|
  {
    if |t| > 0 {
      assert forall k :: 0 <= k < |t[1..]| ==> t[1..][k] == t[k + 1];
      RenderNoOpen(t[1..]);
    }
  }

  /**
    Interpolating a path built from brace-free text and placeholders for the
    given properties, with brace-free values, leaves no placeholder behind.
   */
  lemma {:induction false} InterpolationComplete(t: seq<Piece>, props: seq<(string, string)>)
    requires WellFormed(t)
    requires forall k :: 0 <= k < |props| ==> NoBrace(props[k].0) && '{' !in props[k].1
    requires HolesNamed(t, set k | 0 <= k < |props| :: props[k].0)
    ensures '{' !in InterpolateAll(Render(t), props)
    decreases |props|
  {
    if |props| == 0 {
      assert forall k :: 0 <= k < |t| ==> t[k].Lit?;
      assert forall k :: 0 <= k < |t| ==> t[k].Lit? && '{' !in t[k].text by {
        assert WellFormed(t);
      }
      RenderNoOpen(t);
    } else {
      var (name, value) := props[0];
      ReplaceFills(t, name, value);
      var t' := Fill(t, name, value);
      FillIndex(t, name, value);
      assert WellFormed(t') by {
        forall k | 0 <= k < |t'| ensures match t'[k] case Lit(x) => '{' !in x case Hole(n) => NoBrace(n) {
          assert WellFormed(t);
        }
      }
      assert HolesNamed(t', set k | 0 <= k < |props[1..]| :: props[1..][k].0) by {
        forall k | 0 <= k < |t'| && t'[k].Hole?
          ensures t'[k].name in set j | 0 <= j < |props[1..]| :: props[1..][j].0
        {
          var n := t'[k].name;
          assert t[k] == Hole(n) && n != name;
          assert n in set j | 0 <= j < |props| :: props[j].0;
          var j :| 0 <= j < |props| && props[j].0 == n;
          assert j > 0 && props[1..][j - 1].0 == n;
        }
      }
      InterpolationComplete(t', props[1..]);
    }
  }

  lemma {:induction false} FillIndex(t: seq<Piece>, name: string, value: string)
    ensures forall k :: 0 <= k < |t| ==> Fill(t, name, value)[k] == (if t[k] == Hole(name) then Lit(value) else t[k])
    decreases |t|
  {
    if |t| > 0 { FillIndex(t[1..], name, value); }
  }
}
