/** String operations of JavaScript and Go that the core relies on. */
module Text {
  import opened Wrappers

  /** `s.split(sep)` with a one-element separator: never empty, no piece holds `sep`. */
  function Split<T(==)>(s: seq<T>, sep: T): (parts: seq<seq<T>>)
    ensures |parts| >= 1
    ensures forall i :: 0 <= i < |parts| ==> sep !in parts[i]
    ensures Join(parts, sep) == s
  {
    if s == [] then [[]]
    else
      var rest := Split(s[1..], sep);
      if s[0] == sep then
        assert Join([[]] + rest, sep) == [sep] + Join(rest, sep) by { JoinCons([], rest, sep); }
        [[]] + rest
      else
        var parts := [[s[0]] + rest[0]] + rest[1..];
        assert Join(parts, sep) == [s[0]] + Join(rest, sep) by {
          if |rest| == 1 {
          } else {
            JoinCons([s[0]] + rest[0], rest[1..], sep);
            JoinCons(rest[0], rest[1..], sep);
            assert rest == [rest[0]] + rest[1..];
          }
        }
        parts
  }

  /** `parts.join(sep)`. */
  function Join<T>(parts: seq<seq<T>>, sep: T): seq<T> {
    if parts == [] then []
    else if |parts| == 1 then parts[0]
    else parts[0] + [sep] + Join(parts[1..], sep)
  }

  lemma JoinCons<T>(p: seq<T>, rest: seq<seq<T>>, sep: T)
    requires rest != []
    ensures Join([p] + rest, sep) == p + [sep] + Join(rest, sep)
  {
    assert ([p] + rest)[1..] == rest;
  }

  /** Splitting a joined list gives the list back when no piece holds the separator. */
  lemma {:induction false} SplitJoin<T>(parts: seq<seq<T>>, sep: T)
    requires |parts| >= 1
    requires forall i :: 0 <= i < |parts| ==> sep !in parts[i]
    ensures Split(Join(parts, sep), sep) == parts
  {
    if |parts| == 1 {
      SplitNoSep(parts[0], sep);
    } else {
      SplitJoin(parts[1..], sep);
      SplitPrefix(parts[0], Join(parts[1..], sep), sep);
    }
  }

  lemma {:induction false} SplitNoSep<T>(s: seq<T>, sep: T)
    requires sep !in s
    ensures Split(s, sep) == [s]
  {
    if s != [] {
      SplitNoSep(s[1..], sep);
    }
  }

  lemma {:induction false} SplitPrefix<T>(p: seq<T>, rest: seq<T>, sep: T)
    requires sep !in p
    ensures Split(p + [sep] + rest, sep) == [p] + Split(rest, sep)
  {
    if p == [] {
      assert p + [sep] + rest == [sep] + rest;
      assert ([sep] + rest)[1..] == rest;
    } else {
      assert (p + [sep] + rest)[1..] == p[1..] + [sep] + rest;
      assert p == [p[0]] + p[1..];
      SplitPrefix(p[1..], rest, sep);
    }
  }

  /** The prefix of `s` before the first `c`, or all of `s` (`s.split(c)[0]`). */
  function Before(s: string, c: char): (r: string)
    ensures r == Split(s, c)[0]
    ensures c !in r && r <= s
  {
    if s == [] then ""
    else if s[0] == c then ""
    else [s[0]] + Before(s[1..], c)
  }

  /** The text after the first `c`, when `s` holds one. */
  function After(s: string, c: char): (r: Option<string>)
    ensures r.None? <==> c !in s
    ensures r.Some? ==> s == Before(s, c) + [c] + r.value
  {
    if s == [] then None
    else if s[0] == c then Some(s[1..])
    else match After(s[1..], c)
      case None => None
      case Some(t) => Some(t)
  }

  /** Where `c` first occurs after a `c`-free prefix, `Before` and `After` cut there. */
  lemma {:induction false} BeforeAfterAt(s: string, p: string, c: char, u: string)
    requires s == p + [c] + u && c !in p
    ensures Before(s, c) == p && After(s, c) == Some(u)
    decreases |p|
  {
    if p != [] {
      assert s[1..] == p[1..] + [c] + u;
      BeforeAfterAt(s[1..], p[1..], c, u);
    }
  }

  /** Without a `c`, `Before` keeps everything. */
  lemma {:induction false} BeforeAbsent(s: string, c: char)
    requires c !in s
    ensures Before(s, c) == s
  {
    if s != [] {
      BeforeAbsent(s[1..], c);
    }
  }

  /**
   * The characters `String.prototype.trim` removes: the WhiteSpace and
   * LineTerminator code points of ECMAScript (sections 12.2 and 12.3 of ECMA-262).
   */
  predicate IsJsWhitespace(c: char) {
    var n := c as int;
    || (9 <= n <= 13) || n == 0x20 || n == 0xA0 || n == 0x1680
    || (0x2000 <= n <= 0x200A) || n == 0x2028 || n == 0x2029 || n == 0x202F
    || n == 0x205F || n == 0x3000 || n == 0xFEFF
  }

  /** `s.trim() === ''`. */
  predicate Blank(s: string) {
    forall i :: 0 <= i < |s| ==> IsJsWhitespace(s[i])
  }

  /** `p` occurs in `s` at index `i`. */
  predicate OccursAt(s: string, p: string, i: nat) {
    i + |p| <= |s| && s[i..i + |p|] == p
  }

  /** The first index at which `p` occurs in `s` (`s.indexOf(p)`). */
  function IndexOf(s: string, p: string): (r: Option<nat>)
    ensures r.Some? ==> OccursAt(s, p, r.value)
  {
    if |s| < |p| then None
    else if s[..|p|] == p then Some(0)
    else
      var r := IndexOf(s[1..], p);
      if r.None? then None else Some(r.value + 1)
  }

  /** `p` occurs at `i` in `s` exactly when it occurs at `i - 1` in the tail. */
  lemma OccursAtTail(s: string, p: string, i: nat)
    requires 1 <= i <= |s|
    ensures OccursAt(s, p, i) == OccursAt(s[1..], p, i - 1)
  {
    if i + |p| <= |s| {
      var here, there := s[i..i + |p|], s[1..][i - 1..i - 1 + |p|];
      forall j | 0 <= j < |p| ensures here[j] == there[j] {
        assert s[1..][i - 1 + j] == s[i + j];
      }
      assert here == there;
    }
  }

  /** The index found is the first occurrence, and none means no occurrence at all. */
  lemma {:induction false} IndexOfFirst(s: string, p: string)
    ensures IndexOf(s, p).Some? ==> forall i :: 0 <= i < IndexOf(s, p).value ==> !OccursAt(s, p, i)
    ensures IndexOf(s, p).None? ==> forall i :: 0 <= i ==> !OccursAt(s, p, i)
    decreases |s|
  {
    if |s| >= |p| && s[..|p|] != p {
      IndexOfFirst(s[1..], p);
      forall i | 1 <= i ensures !OccursAt(s, p, i) || OccursAt(s[1..], p, i - 1) {
        if i <= |s| { OccursAtTail(s, p, i); }
      }
      assert !OccursAt(s, p, 0) by { assert s[0..|p|] == s[..|p|]; }
    }
  }

  /**
   * `s.replace(p, r)` with a string pattern whose replacement holds no `$`:
   * scan for the first place `p` starts and replace it there.
   */
  function ReplaceFirst(s: string, p: string, r: string): string
    decreases |s|
  {
    if |s| < |p| then s
    else if s[..|p|] == p then r + s[|p|..]
    else [s[0]] + ReplaceFirst(s[1..], p, r)
  }

  /** Splitting after the first element of the prefix `s[..i]`. */
  lemma ShiftedSlices(s: string, i: nat, j: nat)
    requires 1 <= i <= j <= |s|
    ensures [s[0]] + s[1..][..i - 1] == s[..i]
    ensures s[1..][j - 1..] == s[j..]
  {
  }

  lemma ConsAssoc(c: char, a: string, r: string, b: string)
    ensures [c] + (a + r + b) == ([c] + a) + r + b
  {
  }

  /** The scan agrees with `indexOf`: only the first occurrence is replaced, and no occurrence leaves `s` as it is. */
  lemma {:induction false} ReplaceFirstAt(s: string, p: string, r: string)
    ensures IndexOf(s, p).None? ==> ReplaceFirst(s, p, r) == s
    ensures IndexOf(s, p).Some? ==>
      var i := IndexOf(s, p).value; ReplaceFirst(s, p, r) == s[..i] + r + s[i + |p|..]
    decreases |s|
  {
    if |s| >= |p| && s[..|p|] == p {
      assert s[..0] == [];
    } else if |s| >= |p| {
      ReplaceFirstAt(s[1..], p, r);
      var rest := IndexOf(s[1..], p);
      if rest.None? {
        assert s == [s[0]] + s[1..];
      } else {
        var i := rest.value + 1;
        ShiftedSlices(s, i, i + |p|);
        ConsAssoc(s[0], s[1..][..i - 1], r, s[1..][i - 1 + |p|..]);
      }
    }
  }

  /** Go's `strings.HasSuffix`. */
  predicate HasSuffix(s: string, suffix: string) {
    |suffix| <= |s| && s[|s| - |suffix|..] == suffix
  }

  /** Go's `strings.TrimSuffix`. */
  function TrimSuffix(s: string, suffix: string): (r: string)
    ensures HasSuffix(s, suffix) ==> r + suffix == s
    ensures !HasSuffix(s, suffix) ==> r == s
  {
    if HasSuffix(s, suffix) then s[..|s| - |suffix|] else s
  }

  function LowerAsciiChar(c: char): char {
    if 'A' <= c <= 'Z' then (c as int + 32) as char else c
  }

  /** `s.toLowerCase()` on ASCII letters. */
  function LowerAscii(s: string): (r: string)
    ensures |r| == |s|
    ensures forall i :: 0 <= i < |s| ==> r[i] == LowerAsciiChar(s[i])
  {
    if s == [] then "" else [LowerAsciiChar(s[0])] + LowerAscii(s[1..])
  }

  /** `s.length`: JavaScript counts UTF-16 code units, two for a character above U+FFFF. */
  function Utf16Length(s: string): (n: nat)
    ensures |s| <= n <= 2 * |s|
  {
    if s == [] then 0 else (if s[0] as int > 0xFFFF then 2 else 1) + Utf16Length(s[1..])
  }

  /** Strict lexicographic order by code point (Go's `sort.Strings` order on UTF-8 bytes). */
  predicate Less(a: string, b: string) {
    if a == [] then b != []
    else if b == [] then false
    else if a[0] != b[0] then a[0] < b[0]
    else Less(a[1..], b[1..])
  }

  lemma {:induction false} LessIrreflexive(a: string)
    ensures !Less(a, a)
  {
    if a != [] { LessIrreflexive(a[1..]); }
  }

  lemma {:induction false} LessTransitive(a: string, b: string, c: string)
    requires Less(a, b) && Less(b, c)
    ensures Less(a, c)
  {
    if a != [] && b != [] && c != [] && a[0] == b[0] && b[0] == c[0] {
      LessTransitive(a[1..], b[1..], c[1..]);
    }
  }

  lemma {:induction false} LessTotal(a: string, b: string)
    requires a != b
    ensures Less(a, b) || Less(b, a)
  {
    if a != [] && b != [] && a[0] == b[0] {
      assert a == [a[0]] + a[1..] && b == [b[0]] + b[1..];
      LessTotal(a[1..], b[1..]);
    }
  }
}
