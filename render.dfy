/** `renderTemplate(str, vars)`: placeholder substitution (lib/generator.js:135-141). */
module Render {
  import opened Wrappers
  import opened Text

  /** `{KEY}` */
  function Placeholder(key: string): (p: string)
    ensures |p| == |key| + 2 && p[0] == '{' && p[|p| - 1] == '}'
  {
    "{" + key + "}"
  }

  /**
    `s.split(sep)` for a non-empty separator string: the pieces between the
    non-overlapping occurrences of `sep`, found left to right.
  */
  function SplitOn(s: string, sep: string): (parts: seq<string>)
    requires |sep| >= 1
    ensures |parts| >= 1
    decreases |s|
  {
    if |s| < |sep| then [s]
    else if s[..|sep|] == sep then [""] + SplitOn(s[|sep|..], sep)
    else
      var rest := SplitOn(s[1..], sep);
      [[s[0]] + rest[0]] + rest[1..]
  }

  /** One step of the loop: `out.split("{" + k + "}").join(v ?? "")`. */
  function Substitute(s: string, key: string, value: Option<string>): string {
    Join(SplitOn(s, Placeholder(key)), value.GetOr(""))
  }

  /** The substitutions applied one after another, in the order of `vars`. */
  function Render(s: string, vars: seq<(string, Option<string>)>): string
    decreases |vars|
  {
    if vars == [] then s
    else Render(Substitute(s, vars[0].0, vars[0].1), vars[1..])
  }

  /**
    `renderTemplate(str, vars)`: a missing template is the empty text; each
    entry of `vars`, in order, replaces its placeholder everywhere in the text
    produced so far.
  */
  method RenderTemplate(tpl: Option<string>, vars: seq<(string, Option<string>)>) returns (out: string)
    ensures out == Render(tpl.GetOr(""), vars)
  {
    out := tpl.GetOr("");
    var i := 0;
    while i < |vars|
      invariant 0 <= i <= |vars|
      invariant Render(out, vars[i..]) == Render(tpl.GetOr(""), vars)
    {
      var (k, v) := vars[i];
      assert vars[i..][1..] == vars[i + 1..];
      out := Join(SplitOn(out, Placeholder(k)), v.GetOr(""));
      i := i + 1;
    }
    assert vars[i..] == [];
  }

  // ---------------------------------------------------------------------------
  // An independent reading of split + join

  /** Scan left to right; at each occurrence of `sep` emit `v` and skip past it. */
  function ReplaceAll(s: string, sep: string, v: string): string
    requires |sep| >= 1
    decreases |s|
  {
    if |s| < |sep| then s
    else if s[..|sep|] == sep then v + ReplaceAll(s[|sep|..], sep, v)
    else [s[0]] + ReplaceAll(s[1..], sep, v)
  }

  /** Splitting on `sep` and joining with `v` replaces every occurrence, left to right. */
  lemma {:induction false} SplitJoinIsReplaceAll(s: string, sep: string, v: string)
    requires |sep| >= 1
    ensures Join(SplitOn(s, sep), v) == ReplaceAll(s, sep, v)
    decreases |s|
  {
    if |s| < |sep| {
    } else if s[..|sep|] == sep {
      var rest := SplitOn(s[|sep|..], sep);
      SplitJoinIsReplaceAll(s[|sep|..], sep, v);
      JoinEmptyHead(rest, v);
    } else {
      var rest := SplitOn(s[1..], sep);
      SplitJoinIsReplaceAll(s[1..], sep, v);
      JoinExtendHead(s[0], rest, v);
    }
  }

  /** A leading empty piece contributes only the separator. */
  lemma JoinEmptyHead(rest: seq<string>, v: string)
    requires |rest| >= 1
    ensures Join([""] + rest, v) == v + Join(rest, v)
  {
    assert ([""] + rest)[1..] == rest;
  }

  /** A character put in front of the first piece comes out in front of the join. */
  lemma JoinExtendHead(c: char, rest: seq<string>, v: string)
    requires |rest| >= 1
    ensures Join([[c] + rest[0]] + rest[1..], v) == [c] + Join(rest, v)
  {
    var parts := [[c] + rest[0]] + rest[1..];
    if |rest| > 1 {
      assert parts[1..] == rest[1..];
    }
  }

  /** Text in which `sep` does not occur is left unchanged. */
  lemma {:induction false} ReplaceAbsent(s: string, sep: string, v: string)
    requires |sep| >= 1 && !Contains(s, sep)
    ensures ReplaceAll(s, sep, v) == s
    decreases |s|
  {
    if |s| >= |sep| {
      assert s[..|sep|] != sep;
      ReplaceAbsent(s[1..], sep, v);
      assert [s[0]] + s[1..] == s;
    }
  }

  /** A text with the placeholder once, around text with no `{`, gets the value in its place. */
  lemma SubstituteOnce(a: string, b: string, key: string, value: Option<string>)
    requires '{' !in a && '{' !in b
    ensures Substitute(a + Placeholder(key) + b, key, value) == a + value.GetOr("") + b
  {
    var p := Placeholder(key);
    var v := value.GetOr("");
    assert a + p + b == a + (p + b);
    SplitJoinIsReplaceAll(a + (p + b), p, v);
    ReplacePrefixFree(a, p + b, p, v);
    ReplaceAtStart(b, p, v);
    NoBraceAbsent(b, p);
    ReplaceAbsent(b, p, v);
  }

  /** An occurrence at the front is replaced, and the scan goes on after it. */
  lemma ReplaceAtStart(rest: string, sep: string, v: string)
    requires |sep| >= 1
    ensures ReplaceAll(sep + rest, sep, v) == v + ReplaceAll(rest, sep, v)
  {
    assert (sep + rest)[..|sep|] == sep && (sep + rest)[|sep|..] == rest;
  }

  /** Characters that cannot start the separator are copied through. */
  lemma {:induction false} ReplacePrefixFree(a: string, rest: string, sep: string, v: string)
    requires |sep| >= 1 && sep[0] !in a
    ensures ReplaceAll(a + rest, sep, v) == a + ReplaceAll(rest, sep, v)
    decreases |a|
  {
    if a != [] {
      var s := a + rest;
      assert s[0] == a[0] && s[1..] == a[1..] + rest;
      ReplacePrefixFree(a[1..], rest, sep, v);
      if |s| >= |sep| {
        assert s[..|sep|][0] == a[0];
        assert s[..|sep|] != sep;
        assert ReplaceAll(s, sep, v) == [a[0]] + ReplaceAll(a[1..] + rest, sep, v);
      } else {
        ReplaceShort(rest, sep, v);
        ReplaceShort(s, sep, v);
      }
      assert a == [a[0]] + a[1..];
    } else {
      assert a + rest == rest;
    }
  }

  lemma ReplaceShort(s: string, sep: string, v: string)
    requires |sep| >= 1 && |s| < |sep|
    ensures ReplaceAll(s, sep, v) == s
  {
  }

  /** A placeholder cannot occur in text without `{`. */
  lemma {:induction false} NoBraceAbsent(s: string, p: string)
    requires |p| >= 1 && p[0] == '{' && '{' !in s
    ensures !Contains(s, p)
    decreases |s|
  {
    if s != [] {
      if |p| <= |s| {
        assert s[..|p|][0] == s[0];
      }
      NoBraceAbsent(s[1..], p);
    }
  }

  /** Text without `{` renders to itself, whatever the values. */
  lemma {:induction false} RenderWithoutBraces(s: string, vars: seq<(string, Option<string>)>)
    requires '{' !in s
    ensures Render(s, vars) == s
    decreases |vars|
  {
    if vars != [] {
      var p := Placeholder(vars[0].0);
      NoBraceAbsent(s, p);
      ReplaceAbsent(s, p, vars[0].1.GetOr(""));
      SplitJoinIsReplaceAll(s, p, vars[0].1.GetOr(""));
      RenderWithoutBraces(s, vars[1..]);
    }
  }

  /**
    Text in which no key of `vars` has its placeholder renders to itself:
    braces around anything else, such as `{NAME}` with no `NAME` entry, stay.
  */
  lemma {:induction false} RenderUnmatched(s: string, vars: seq<(string, Option<string>)>)
    requires forall i :: 0 <= i < |vars| ==> !Contains(s, Placeholder(vars[i].0))
    ensures Render(s, vars) == s
    decreases |vars|
  {
    if vars != [] {
      var p := Placeholder(vars[0].0);
      var v := vars[0].1.GetOr("");
      SplitJoinIsReplaceAll(s, p, v);
      ReplaceAbsent(s, p, v);
      assert Substitute(s, vars[0].0, vars[0].1) == s;
      forall i | 0 <= i < |vars[1..]|
        ensures !Contains(s, Placeholder(vars[1..][i].0))
      {
        assert vars[1..][i] == vars[i + 1];
      }
      RenderUnmatched(s, vars[1..]);
    }
  }

  /** `{NAME}` with no `NAME` among the keys is left as it is. */
  lemma UnknownKeyKept(s: string)
    requires s == "{NAME}"
    ensures Render(s, [("ADDRESS", Some("Тверская, 1"))]) == s
  {
    var p := Placeholder("ADDRESS");
    assert p == "{ADDRESS}";
    assert !Contains(s, p) by {
      ContainsIff(s, p);
      forall i | 0 <= i <= |s| ensures !OccursAt(s, p, i) {
      }
    }
    RenderUnmatched(s, [("ADDRESS", Some("Тверская, 1"))]);
  }

  /** A missing template renders to the empty text. */
  lemma RenderMissingTemplate(vars: seq<(string, Option<string>)>)
    ensures Render(None.GetOr(""), vars) == ""
  {
    RenderWithoutBraces("", vars);
  }

  /**
    Substitution is sequential: a value that itself holds a later key's
    placeholder is expanded by that later key, and a missing value erases its
    placeholder.
  */
  lemma SequentialExample()
    ensures Render("{A}", [("A", Some("{B}")), ("B", Some("x"))]) == "x"
    ensures Render("<{A}>", [("A", None)]) == "<>"
  {
    SubstituteOnce("", "", "A", Some("{B}"));
    SubstituteOnce("", "", "B", Some("x"));
    RenderWithoutBraces("x", []);
    SubstituteOnce("<", ">", "A", None);
    assert "" + Placeholder("A") + "" == "{A}";
    assert "<" + Placeholder("A") + ">" == "<{A}>";
    assert "" + Placeholder("B") + "" == "{B}";
  }
}
