/**
 * OpenAPI path templates such as `/posts/{id}/comments/{commentId}`.
 *
 * A template is read as the global regular expression `\{([^}]+)\}` reads
 * it: scanning left to right, a `{` followed by at least one character other
 * than `}` and then a `}` is a placeholder, and every other character is
 * literal.  Matching a concrete path against a template is the anchored
 * pattern in which each placeholder is a greedy `([^/]+)` and every other
 * character stands for itself, with the backtracking order of a JavaScript
 * regular expression.
 */
module PathTemplates {
  import opened Wrappers
  import opened Text

  datatype Token = Lit(c: char) | Param(name: string)

  /** The template text a token sequence spells. */
  function Unparse(toks: seq<Token>): string {
    if toks == [] then ""
    else
      match toks[0]
      case Lit(c) => [c] + Unparse(toks[1..])
      case Param(n) => "{" + n + "}" + Unparse(toks[1..])
  }

  /** A `{` token stands for itself only where no `}` closes a non-empty name after it. */
  predicate Leftmost(toks: seq<Token>) {
    toks == [] ||
    ((toks[0] == Lit('{') ==> var after := Unparse(toks[1..]); '}' !in after || after[0] == '}')
     && Leftmost(toks[1..]))
  }

  predicate NameOk(n: string) {
    n != "" && '}' !in n
  }

  /** Every placeholder has a name a template can spell. */
  predicate WellNamed(toks: seq<Token>) {
    forall i :: 0 <= i < |toks| && toks[i].Param? ==> NameOk(toks[i].name)
  }

  lemma WellNamedCons(x: Token, rest: seq<Token>)
    ensures WellNamed([x] + rest) <==> (x.Param? ==> NameOk(x.name)) && WellNamed(rest)
  {
    var toks := [x] + rest;
    assert toks[0] == x;
    if WellNamed(toks) {
      forall i | 0 <= i < |rest| && rest[i].Param? ensures NameOk(rest[i].name) {
        assert rest[i] == toks[i + 1];
      }
    }
    if (x.Param? ==> NameOk(x.name)) && WellNamed(rest) {
      forall i | 0 <= i < |toks| && toks[i].Param? ensures NameOk(toks[i].name) {
        if i > 0 { assert toks[i] == rest[i - 1]; }
      }
    }
  }

  /** The template split into literal characters and placeholders. */
  function Tokenize(t: string): (toks: seq<Token>)
    ensures Unparse(toks) == t
    ensures WellNamed(toks)
    ensures Leftmost(toks)
    decreases |t|
  {
    if t == [] then []
    else
      var name := Before(t[1..], '}');
      var closing := After(t[1..], '}');
      if t[0] == '{' && closing.Some? && name != "" then
        var rest := Tokenize(closing.value);
        ParamStep(t, rest);
        [Param(name)] + rest
      else
        var rest := Tokenize(t[1..]);
        LitStep(t, rest);
        [Lit(t[0])] + rest
  }

  /** A placeholder read at the head of `t` in front of the tokens of what follows its `}`. */
  lemma {:induction false} ParamStep(t: string, rest: seq<Token>)
    requires t != [] && t[0] == '{' && After(t[1..], '}').Some? && Before(t[1..], '}') != ""
    requires Unparse(rest) == After(t[1..], '}').value && WellNamed(rest) && Leftmost(rest)
    ensures var toks := [Param(Before(t[1..], '}'))] + rest;
      Unparse(toks) == t && WellNamed(toks) && Leftmost(toks)
  {
    var name := Before(t[1..], '}');
    var toks := [Param(name)] + rest;
    assert Unparse(toks) == t by {
      ParamUnparse(t, name, After(t[1..], '}').value, rest);
    }
    assert Leftmost(toks) by {
      assert toks[0] == Param(name) && toks[1..] == rest;
    }
    WellNamedCons(Param(name), rest);
  }

  lemma {:induction false} ParamUnparse(t: string, name: string, u: string, rest: seq<Token>)
    requires t != [] && t[0] == '{' && t[1..] == name + ['}'] + u && Unparse(rest) == u
    ensures Unparse([Param(name)] + rest) == t
  {
    var toks := [Param(name)] + rest;
    assert toks[0] == Param(name) && toks[1..] == rest;
    assert t == [t[0]] + t[1..];
  }

  /** A literal character read at the head of `t` where no placeholder starts. */
  lemma {:induction false} LitStep(t: string, rest: seq<Token>)
    requires t != [] && !(t[0] == '{' && After(t[1..], '}').Some? && Before(t[1..], '}') != "")
    requires Unparse(rest) == t[1..] && WellNamed(rest) && Leftmost(rest)
    ensures var toks := [Lit(t[0])] + rest;
      Unparse(toks) == t && WellNamed(toks) && Leftmost(toks)
  {
    var toks := [Lit(t[0])] + rest;
    assert toks[1..] == rest;
    WellNamedCons(Lit(t[0]), rest);
    assert t == [t[0]] + t[1..];
    if t[0] == '{' && '}' in t[1..] {
      assert t[1..] == Before(t[1..], '}') + ['}'] + After(t[1..], '}').value;
    }
  }

  /** The placeholder names, in order, duplicates included. */
  function ParamNames(toks: seq<Token>): (names: seq<string>)
    ensures |names| <= |toks|
  {
    if toks == [] then []
    else if toks[0].Param? then [toks[0].name] + ParamNames(toks[1..])
    else ParamNames(toks[1..])
  }

  /** `extractPathParams(path)`: the placeholder names in order of appearance, or none. */
  function ExtractPathParams(path: string): (names: seq<string>)
    ensures forall i :: 0 <= i < |names| ==> NameOk(names[i])
    ensures names == ParamNames(Tokenize(path))
  {
    var toks := Tokenize(path);
    NamesOk(toks);
    ParamNames(toks)
  }

  lemma {:induction false} NamesOk(toks: seq<Token>)
    requires WellNamed(toks)
    ensures forall i :: 0 <= i < |ParamNames(toks)| ==> NameOk(ParamNames(toks)[i])
  {
    if toks != [] {
      NamesOk(toks[1..]);
    }
  }

  /** No literal `{`: every brace-open in the template starts a placeholder. */
  predicate NoLiteralBrace(toks: seq<Token>) {
    forall i :: 0 <= i < |toks| && toks[i].Lit? ==> toks[i].c != '{'
  }

  /**
   * A template written as literal text without `{` and well-formed
   * placeholders yields exactly those placeholder names, in order, duplicates
   * included: `/posts/{id}/comments/{commentId}` gives `id`, `commentId`.
   */
  lemma ExtractPathParamsOfTemplate(toks: seq<Token>)
    requires NoLiteralBrace(toks)
    requires WellNamed(toks)
    ensures ExtractPathParams(Unparse(toks)) == ParamNames(toks)
  {
    NoLiteralBraceLeftmost(toks);
    TokenizeUnique(Unparse(toks), toks);
  }

  lemma {:induction false} NoLiteralBraceLeftmost(toks: seq<Token>)
    requires NoLiteralBrace(toks)
    ensures Leftmost(toks)
  {
    if toks != [] {
      assert NoLiteralBrace(toks[1..]) by {
        forall i | 0 <= i < |toks[1..]| && toks[1..][i].Lit? ensures toks[1..][i].c != '{' {
          assert toks[1..][i] == toks[i + 1];
        }
      }
      NoLiteralBraceLeftmost(toks[1..]);
    }
  }

  /**
   * The three properties of `Tokenize` pin it down: any token sequence that
   * spells `t`, has non-empty names without `}` and keeps the leftmost reading
   * is `Tokenize(t)`.
   */
  lemma {:induction false} TokenizeUnique(t: string, toks: seq<Token>)
    requires Unparse(toks) == t
    requires WellNamed(toks)
    requires Leftmost(toks)
    ensures Tokenize(t) == toks
    decreases |toks|
  {
    if toks != [] {
      var rest := toks[1..];
      assert toks == [toks[0]] + rest;
      WellNamedCons(toks[0], rest);
      var u := Unparse(rest);
      match toks[0]
      case Lit(c) =>
        assert t == [c] + u;
        assert t[1..] == u;
        TokenizeUnique(u, rest);
        if c == '{' {
          assert '}' !in u || u[0] == '}' by { assert toks[0] == Lit('{') && toks[1..] == rest; }
          if '}' in u {
            assert Before(u, '}') == "";
          }
        }
      case Param(n) =>
        assert t == "{" + n + "}" + u;
        assert t[1..] == n + ['}'] + u;
        BeforeAfterAt(t[1..], n, '}', u);
        TokenizeUnique(u, rest);
    }
  }

  // ---------------------------------------------------------------------------
  // Rendering and matching

  /** A text one `([^/]+)` group can capture. */
  predicate Capture(x: string) {
    x != "" && '/' !in x
  }

  predicate AllCaptures(caps: seq<string>) {
    forall i :: 0 <= i < |caps| ==> Capture(caps[i])
  }

  /** The template with its placeholders, in order, replaced by `caps`. */
  function Render(toks: seq<Token>, caps: seq<string>): string
    requires |caps| == |ParamNames(toks)|
  {
    if toks == [] then ""
    else
      match toks[0]
      case Lit(c) => [c] + Render(toks[1..], caps)
      case Param(_) => caps[0] + Render(toks[1..], caps[1..])
  }

  /** The length of the longest prefix of `s` without `/`: the most a `[^/]+` group can take. */
  function RunLen(s: string): (n: nat)
    ensures n <= |s| && '/' !in s[..n]
    ensures n < |s| ==> s[n] == '/'
  {
    if s == [] || s[0] == '/' then 0
    else
      var n := 1 + RunLen(s[1..]);
      assert s[..n] == [s[0]] + s[1..][..n - 1];
      n
  }

  /**
   * The anchored match of `s` against the template: the captures of the first
   * match a backtracking regular-expression engine finds, or `None`.
   */
  function Match(toks: seq<Token>, s: string): (r: Option<seq<string>>)
    ensures r.Some? ==>
      |r.value| == |ParamNames(toks)| && AllCaptures(r.value) && Render(toks, r.value) == s
    decreases |toks|, |s| + 1
  {
    if toks == [] then
      if s == "" then Some([]) else None
    else
      match toks[0]
      case Lit(c) =>
        if s != "" && s[0] == c then
          var r := Match(toks[1..], s[1..]);
          assert r.Some? ==> s == [c] + Render(toks[1..], r.value);
          r
        else None
      case Param(_) => TryParam(toks[1..], s, RunLen(s))
  }

  /** Try the group's capture lengths from `k` down to 1, the greedy order. */
  function TryParam(rest: seq<Token>, s: string, k: nat): (r: Option<seq<string>>)
    requires k <= RunLen(s)
    ensures r.Some? ==>
      |r.value| == 1 + |ParamNames(rest)| && AllCaptures(r.value)
      && 1 <= |r.value[0]| <= k && r.value[0] + Render(rest, r.value[1..]) == s
    decreases |rest| + 1, k
  {
    if k == 0 then None
    else
      assert Capture(s[..k]) by { assert s[..k] == s[..RunLen(s)][..k]; }
      match Match(rest, s[k..])
      case Some(caps) =>
        var r := [s[..k]] + caps;
        assert r[1..] == caps;
        assert s == s[..k] + s[k..];
        Some(r)
      case None => TryParam(rest, s, k - 1)
  }

  /** Some way of filling the placeholders spells `s`. */
  predicate Matches(toks: seq<Token>, s: string, caps: seq<string>) {
    |caps| == |ParamNames(toks)| && AllCaptures(caps) && Render(toks, caps) == s
  }

  /** Whenever some filling of the placeholders spells `s`, the matcher finds a match. */
  lemma {:induction false} MatchComplete(toks: seq<Token>, s: string, caps: seq<string>)
    requires Matches(toks, s, caps)
    ensures Match(toks, s).Some?
    decreases |toks|
  {
    if toks != [] {
      match toks[0]
      case Lit(c) =>
        MatchComplete(toks[1..], s[1..], caps);
      case Param(_) =>
        var x := caps[0];
        var u := Render(toks[1..], caps[1..]);
        assert s == x + u;
        assert forall i :: 1 <= i < |caps| ==> caps[1..][i - 1] == caps[i];
        assert s[|x|..] == u;
        MatchComplete(toks[1..], u, caps[1..]);
        RunAtLeast(s, x);
        TryParamComplete(toks[1..], s, RunLen(s), |x|);
    }
  }

  lemma {:induction false} RunAtLeast(s: string, x: string)
    requires x <= s && '/' !in x
    ensures |x| <= RunLen(s)
  {
    if x != [] {
      assert s[0] == x[0];
      RunAtLeast(s[1..], x[1..]);
    }
  }

  lemma {:induction false} TryParamComplete(rest: seq<Token>, s: string, k: nat, j: nat)
    requires 1 <= j <= k <= RunLen(s)
    requires Match(rest, s[j..]).Some?
    ensures TryParam(rest, s, k).Some?
    decreases k
  {
    if k > j && Match(rest, s[k..]).None? {
      TryParamComplete(rest, s, k - 1, j);
    }
  }

  /** A template matches a path exactly when some filling of its placeholders spells the path. */
  lemma MatchIff(toks: seq<Token>, s: string)
    ensures Match(toks, s).Some? <==> exists caps :: Matches(toks, s, caps)
  {
    if Match(toks, s).Some? {
      assert Matches(toks, s, Match(toks, s).value);
    }
    if exists caps :: Matches(toks, s, caps) {
      var caps :| Matches(toks, s, caps);
      MatchComplete(toks, s, caps);
    }
  }

  /** Every placeholder is a whole path segment's tail: it ends the template or a `/` follows it. */
  predicate SegmentParams(toks: seq<Token>) {
    forall i :: 0 <= i < |toks| && toks[i].Param? ==> i + 1 == |toks| || toks[i + 1] == Lit('/')
  }

  /**
   * With every placeholder followed by `/` or the end, a match is unique: the
   * matcher recovers exactly the captures the path was rendered from.
   */
  lemma {:induction false} MatchUnique(toks: seq<Token>, caps: seq<string>)
    requires |caps| == |ParamNames(toks)| && AllCaptures(caps)
    requires SegmentParams(toks)
    ensures Match(toks, Render(toks, caps)) == Some(caps)
    decreases |toks|
  {
    if toks != [] {
      var s := Render(toks, caps);
      var rest := toks[1..];
      assert SegmentParams(rest) by {
        forall i | 0 <= i < |rest| && rest[i].Param? ensures i + 1 == |rest| || rest[i + 1] == Lit('/') {
          assert toks[i + 1] == rest[i];
        }
      }
      match toks[0]
      case Lit(c) =>
        assert s[1..] == Render(rest, caps);
        MatchUnique(rest, caps);
      case Param(_) =>
        var x := caps[0];
        var tail := caps[1..];
        assert AllCaptures(tail) by {
          forall i | 0 <= i < |tail| ensures Capture(tail[i]) { assert tail[i] == caps[i + 1]; }
        }
        var u := Render(rest, tail);
        assert s == x + u;
        assert s[|x|..] == u;
        MatchUnique(rest, tail);
        RunAtLeast(s, x);
        if rest != [] {
          assert u[0] == '/';
          assert s[|x|] == '/';
        }
        assert RunLen(s) == |x|;
        assert s[..|x|] == x;
        assert [x] + tail == caps;
    }
  }
}
