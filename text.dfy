/** String primitives of the PHP runtime that the generator relies on:
    str_replace, trim, explode/implode on "\n", substring search, and the
    character class \s of PCRE2 patterns. Strings are seq<char>. */
module PhpText {

  /** The characters PHP's trim() strips by default: " \t\n\r\0\x0B". */
  predicate IsTrimChar(c: char) {
    c == ' ' || c == '\t' || c == '\n' || c == '\r' || c == '\0' || c == '\U{0B}'
  }

  /** The characters PCRE2 matches with \s: space, \t, \n, \x0B, \f, \r.
      Unlike trim() it includes form feed and excludes NUL. */
  predicate IsPcreSpace(c: char) {
    c == ' ' || c == '\t' || c == '\n' || c == '\U{0B}' || c == '\U{0C}' || c == '\r'
  }

  predicate IsDigit(c: char) {
    '0' <= c <= '9'
  }

  /** `p` occurs in `s` starting at index `i`. */
  predicate OccursAt(s: string, p: string, i: int) {
    0 <= i && i + |p| <= |s| && s[i..i + |p|] == p
  }

  /** Substring test (str_contains / Str::contains for a non-empty needle). */
  predicate Contains(s: string, p: string) {
    exists i | 0 <= i <= |s| - |p| :: OccursAt(s, p, i)
  }

  predicate StartsWith(s: string, p: string) {
    |p| <= |s| && s[..|p|] == p
  }

  /** PHP ltrim(): drops leading trim characters. */
  function TrimLeft(s: string): (r: string)
    ensures |r| <= |s| && r == s[|s| - |r|..]
    ensures r == [] || !IsTrimChar(r[0])
  {
    if s != [] && IsTrimChar(s[0]) then TrimLeft(s[1..]) else s
  }

  /** PHP rtrim(): drops trailing trim characters. */
  function TrimRight(s: string): (r: string)
    ensures |r| <= |s| && r == s[..|r|]
    ensures r == [] || !IsTrimChar(r[|r| - 1])
  {
    if s != [] && IsTrimChar(s[|s| - 1]) then TrimRight(s[..|s| - 1]) else s
  }

  /** ltrim() removes exactly the leading run of trim characters: what it
      drops are trim characters, and what it keeps does not start with one. */
  lemma {:induction false} TrimLeftDropsOnlyTrimChars(s: string)
    ensures var r := TrimLeft(s);
      && r == s[|s| - |r|..]
      && (forall k :: 0 <= k < |s| - |r| ==> IsTrimChar(s[k]))
      && (r == [] || !IsTrimChar(r[0]))
    decreases |s|
  {
    if s != [] && IsTrimChar(s[0]) {
      TrimLeftDropsOnlyTrimChars(s[1..]);
    }
  }

  /** rtrim() removes exactly the trailing run of trim characters. */
  lemma {:induction false} TrimRightDropsOnlyTrimChars(s: string)
    ensures var r := TrimRight(s);
      && r == s[..|r|]
      && (forall k :: |r| <= k < |s| ==> IsTrimChar(s[k]))
      && (r == [] || !IsTrimChar(r[|r| - 1]))
    decreases |s|
  {
    if s != [] && IsTrimChar(s[|s| - 1]) {
      TrimRightDropsOnlyTrimChars(s[..|s| - 1]);
    }
  }

  /** PHP trim(). */
  function Trim(s: string): string {
    TrimRight(TrimLeft(s))
  }

  /** A string that starts and ends with non-trim characters is its own trim. */
  lemma TrimStable(s: string)
    requires s != [] && !IsTrimChar(s[0]) && !IsTrimChar(s[|s| - 1])
    ensures Trim(s) == s
  {
  }

  /** A leading newline is all that trim() takes from such a string. */
  lemma TrimNewlineLead(x: string)
    requires x != [] && !IsTrimChar(x[0]) && !IsTrimChar(x[|x| - 1])
    ensures Trim("\n" + x) == x
  {
    var s := "\n" + x;
    assert s[1..] == x;
    assert TrimLeft(s) == TrimLeft(x);
    TrimStable(x);
  }

  /** Trailing trim characters after a string that ends in a non-trim
      character are exactly what rtrim() removes. */
  lemma {:induction false} TrimRightAppend(a: string, b: string)
    requires a != [] && !IsTrimChar(a[|a| - 1])
    requires forall k :: 0 <= k < |b| ==> IsTrimChar(b[k])
    ensures TrimRight(a + b) == a
    decreases |b|
  {
    if b == [] {
      assert a + b == a;
    } else {
      assert (a + b)[..|a + b| - 1] == a + b[..|b| - 1];
      TrimRightAppend(a, b[..|b| - 1]);
    }
  }

  /** str_replace($search, $rep, $s): every non-overlapping occurrence of
      `search`, scanning left to right, is replaced; replaced text is not
      rescanned. An empty search string leaves the subject unchanged. */
  function ReplaceAll(s: string, search: string, rep: string): string
    decreases |s|
  {
    if search == [] || |s| < |search| then s
    else if s[..|search|] == search then rep + ReplaceAll(s[|search|..], search, rep)
    else [s[0]] + ReplaceAll(s[1..], search, rep)
  }

  /** A subject in which the search string does not occur comes back unchanged. */
  lemma {:induction false} ReplaceAllAbsent(s: string, search: string, rep: string)
    requires !Contains(s, search)
    ensures ReplaceAll(s, search, rep) == s
    decreases |s|
  {
    if search == [] || |s| < |search| {
    } else {
      assert !OccursAt(s, search, 0);
      forall i | 0 <= i <= |s[1..]| - |search|
        ensures !OccursAt(s[1..], search, i)
      {
        assert !OccursAt(s, search, i + 1);
        assert s[1..][i..i + |search|] == s[i + 1..i + 1 + |search|];
      }
      ReplaceAllAbsent(s[1..], search, rep);
    }
  }

  /** After str_replace, the replacement text is present whenever the search
      string was. */
  lemma {:induction false} ReplaceAllIntroduces(s: string, search: string, rep: string)
    requires search != [] && Contains(s, search)
    ensures Contains(ReplaceAll(s, search, rep), rep)
    decreases |s|
  {
    if s[..|search|] == search {
      var r := ReplaceAll(s, search, rep);
      assert r == rep + ReplaceAll(s[|search|..], search, rep);
      assert OccursAt(r, rep, 0);
    } else {
      var i :| 0 <= i <= |s| - |search| && OccursAt(s, search, i);
      assert i != 0;
      assert s[1..][i - 1..i - 1 + |search|] == s[i..i + |search|];
      assert OccursAt(s[1..], search, i - 1);
      ReplaceAllIntroduces(s[1..], search, rep);
      var t := ReplaceAll(s[1..], search, rep);
      var j :| 0 <= j <= |t| - |rep| && OccursAt(t, rep, j);
      assert ([s[0]] + t)[j + 1..j + 1 + |rep|] == t[j..j + |rep|];
      assert OccursAt([s[0]] + t, rep, j + 1);
    }
  }

  /** str_replace passes over a prefix in which no occurrence starts. */
  lemma {:induction false} ReplaceAllSkip(x: string, rest: string, search: string, rep: string)
    requires search != []
    requires forall k :: 0 <= k < |x| ==> !OccursAt(x + rest, search, k)
    ensures ReplaceAll(x + rest, search, rep) == x + ReplaceAll(rest, search, rep)
    decreases |x|
  {
    if x == [] {
      assert x + rest == rest;
    } else {
      var s := x + rest;
      ShiftNoOccur(x, rest, search);
      ReplaceAllSkip(x[1..], rest, search, rep);
      assert s[1..] == x[1..] + rest && s[0] == x[0];
      if |s| < |search| {
        assert ReplaceAll(rest, search, rep) == rest;
      } else {
        assert !OccursAt(s, search, 0);
        assert s[..|search|] != search;
        assert ReplaceAll(s, search, rep) == [x[0]] + (x[1..] + ReplaceAll(rest, search, rep));
        assert [x[0]] + (x[1..] + ReplaceAll(rest, search, rep)) == ([x[0]] + x[1..]) + ReplaceAll(rest, search, rep);
        assert [x[0]] + x[1..] == x;
      }
    }
  }

  /** No occurrence starts in x, so none starts in x without its first
      character. */
  lemma ShiftNoOccur(x: string, rest: string, search: string)
    requires x != []
    requires forall k :: 0 <= k < |x| ==> !OccursAt(x + rest, search, k)
    ensures forall k :: 0 <= k < |x| - 1 ==> !OccursAt(x[1..] + rest, search, k)
  {
    var s := x + rest;
    assert x[1..] + rest == s[1..];
    forall k | 0 <= k < |x| - 1
      ensures !OccursAt(s[1..], search, k)
    {
      assert !OccursAt(s, search, k + 1);
      if k + |search| <= |s| - 1 {
        assert s[1..][k..k + |search|] == s[k + 1..k + 1 + |search|];
      }
    }
  }

  /** str_replace passes over a piece that lacks the first character of the
      search string. */
  lemma LeadAbsentSkip(x: string, rest: string, search: string, rep: string)
    requires search != [] && search[0] !in x
    ensures ReplaceAll(x + rest, search, rep) == x + ReplaceAll(rest, search, rep)
  {
    forall k | 0 <= k < |x|
      ensures !OccursAt(x + rest, search, k)
    {
      assert (x + rest)[k] == x[k];
      assert x[k] in x;
      if k + |search| <= |x + rest| {
        assert (x + rest)[k..k + |search|][0] != search[0];
      }
    }
    ReplaceAllSkip(x, rest, search, rep);
  }

  /** An occurrence at the very start is replaced and the scan goes on
      after it. */
  lemma ReplaceAllLeading(search: string, x: string, rep: string)
    requires search != []
    ensures ReplaceAll(search + x, search, rep) == rep + ReplaceAll(x, search, rep)
  {
    var s := search + x;
    assert s[..|search|] == search && s[|search|..] == x;
  }

  /** Two occurrences separated by text that cannot start one: both are
      replaced (str_replace is global). */
  lemma ReplaceAllTwo(search: string, a: string, b: string, rep: string)
    requires search != [] && search[0] !in a && search[0] !in b
    ensures ReplaceAll(search + a + search + b, search, rep) == rep + a + rep + b
  {
    FourPartsNest(search, a, search, b);
    ReplaceAllLeading(search, a + (search + b), rep);
    LeadAbsentSkip(a, search + b, search, rep);
    ReplaceAllLeading(search, b, rep);
    AbsentLead(b, search);
    ReplaceAllAbsent(b, search, rep);
    FourPartsNest(rep, a, rep, b);
  }

  /** Four concatenated strings, grouped from the right as the scan of
      str_replace consumes them. */
  lemma FourPartsNest(w: string, x: string, y: string, z: string)
    ensures w + x + y + z == w + (x + (y + z))
  {
  }

  /** The index after the longest run of \s characters from i (a greedy \s*). */
  function SkipSpaces(s: string, i: nat): (r: nat)
    requires i <= |s|
    ensures i <= r <= |s|
    ensures forall k :: i <= k < r ==> IsPcreSpace(s[k])
    ensures r == |s| || !IsPcreSpace(s[r])
    decreases |s| - i
  {
    if i < |s| && IsPcreSpace(s[i]) then SkipSpaces(s, i + 1) else i
  }

  /** An occurrence in `a + [c] + b` of a pattern that does not contain `c`
      lies entirely in `a` or entirely in `b`. */
  lemma ContainsAcross(a: string, c: char, b: string, p: string)
    requires c !in p
    requires !Contains(a, p) && !Contains(b, p)
    ensures !Contains(a + [c] + b, p)
  {
    var s := a + [c] + b;
    forall i | 0 <= i <= |s| - |p|
      ensures !OccursAt(s, p, i)
    {
      if i + |p| <= |a| {
        assert a[i..i + |p|] == s[i..i + |p|];
        assert !OccursAt(a, p, i);
      } else if i > |a| {
        assert b[i - |a| - 1..i - |a| - 1 + |p|] == s[i..i + |p|];
        assert !OccursAt(b, p, i - |a| - 1);
      } else {
        assert s[i..i + |p|][|a| - i] == c;
        assert c in s[i..i + |p|];
      }
    }
  }

  /** A pattern whose first character is absent from `s` does not occur in it. */
  lemma AbsentLead(s: string, p: string)
    requires p != [] && p[0] !in s
    ensures !Contains(s, p)
  {
    forall i | 0 <= i <= |s| - |p|
      ensures !OccursAt(s, p, i)
    {
      assert s[i] in s;
    }
  }

  /** implode("\n", lines). */
  function Join(lines: seq<string>): string
    decreases |lines|
  {
    if lines == [] then ""
    else if |lines| == 1 then lines[0]
    else lines[0] + "\n" + Join(lines[1..])
  }

  /** explode("\n", s): the pieces between newlines, always at least one. */
  function Split(s: string): (r: seq<string>)
    ensures |r| >= 1
    ensures forall k :: 0 <= k < |r| ==> '\n' !in r[k]
    ensures Join(r) == s
    decreases |s|
  {
    if s == [] then [""]
    else if s[0] == '\n' then
      var rest := Split(s[1..]);
      assert Join([""] + rest) == "" + "\n" + Join(rest);
      [""] + rest
    else
      var rest := Split(s[1..]);
      var r := [[s[0]] + rest[0]] + rest[1..];
      assert Join(r) == [s[0]] + Join(rest) by {
        if |rest| == 1 {
        } else {
          assert r[1..] == rest[1..];
        }
      }
      r
  }

  /** explode undoes implode for lines that contain no newline. */
  lemma {:induction false} SplitJoin(lines: seq<string>)
    requires |lines| >= 1
    requires forall k :: 0 <= k < |lines| ==> '\n' !in lines[k]
    ensures Split(Join(lines)) == lines
    decreases |lines|, |lines[0]|
  {
    var l := lines[0];
    if l == [] {
      if |lines| == 1 {
      } else {
        SplitJoin(lines[1..]);
        var s := Join(lines);
        assert s == "\n" + Join(lines[1..]);
        assert s[0] == '\n' && s[1..] == Join(lines[1..]);
        assert Split(s) == [""] + Split(s[1..]);
      }
    } else {
      var shorter := [l[1..]] + lines[1..];
      forall k | 0 <= k < |shorter|
        ensures '\n' !in shorter[k]
      {
        if k == 0 {
          assert forall c :: c in l[1..] ==> c in l;
        } else {
          assert shorter[k] == lines[k];
        }
      }
      SplitJoin(shorter);
      assert l[0] in l;
      if |lines| == 1 {
        assert Join(lines) == [l[0]] + Join(shorter);
      } else {
        assert shorter[1..] == lines[1..];
        assert Join(lines) == [l[0]] + Join(shorter);
      }
      var s := Join(lines);
      assert s[0] == l[0] && s[0] != '\n';
      assert s[1..] == Join(shorter);
      var rest := Split(s[1..]);
      assert rest == shorter;
      assert Split(s) == [[s[0]] + rest[0]] + rest[1..];
      assert [l[0]] + l[1..] == l;
      assert [[s[0]] + rest[0]] + rest[1..] == lines;
    }
  }

  /** Appending an empty line to an implode adds one trailing newline. */
  lemma {:induction false} JoinSnocEmpty(lines: seq<string>)
    requires lines != []
    ensures Join(lines + [""]) == Join(lines) + "\n"
    decreases |lines|
  {
    if |lines| == 1 {
    } else {
      assert (lines + [""])[1..] == lines[1..] + [""];
      JoinSnocEmpty(lines[1..]);
    }
  }

  /** implode over two non-empty blocks puts one newline between them. */
  lemma {:induction false} JoinAppend(a: seq<string>, b: seq<string>)
    requires a != [] && b != []
    ensures Join(a + b) == Join(a) + "\n" + Join(b)
    decreases |a|
  {
    if |a| == 1 {
      assert (a + b)[1..] == b;
    } else {
      assert (a + b)[1..] == a[1..] + b;
      JoinAppend(a[1..], b);
    }
  }
}
