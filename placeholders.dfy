/** The placeholder engine of generateFile: ordered str_replace of the
    replacement list over a stub, and the preg_match('/\{\{.*?\}\}/') test
    that rejects a result in which a placeholder survives on one line. */
module Placeholders {
  import opened PhpText

  /** One entry of the $replacements array: search token and its value. */
  datatype Replacement = Replacement(search: string, value: string)

  /** The foreach over $replacements: each str_replace is applied, in
      order, to the result of the previous ones. */
  function Substitute(content: string, reps: seq<Replacement>): string
    decreases |reps|
  {
    if reps == [] then content
    else
      var last := reps[|reps| - 1];
      ReplaceAll(Substitute(content, reps[..|reps| - 1]), last.search, last.value)
  }

  /** A closing "}}" starts at j, with no newline between k and j. */
  predicate CloseAt(s: string, k: int, j: int) {
    0 <= k <= j && j + 2 <= |s| && s[j] == '}' && s[j + 1] == '}' && '\n' !in s[k..j]
  }

  /** `{{` at i and a later `}}` at j on the same line: a match of /\{\{.*?\}\}/
      (the dot does not match a newline). */
  predicate PlaceholderAt(s: string, i: int, j: int) {
    0 <= i && i + 2 <= |s| && s[i] == '{' && s[i + 1] == '{' && CloseAt(s, i + 2, j)
  }

  /** The lazy `.*?\}\}` part: is there a "}}" from k on before the next newline? */
  function CloseOnLine(s: string, k: nat): (r: bool)
    requires k <= |s|
    ensures r <==> exists j :: CloseAt(s, k, j)
    decreases |s| - k
  {
    if k + 2 > |s| then false
    else if s[k] == '}' && s[k + 1] == '}' then
      assert CloseAt(s, k, k);
      true
    else if s[k] == '\n' then
      assert forall j :: k < j <= |s| ==> s[k..j][0] == '\n';
      false
    else
      CloseShift(s, k, k + 1);
      CloseOnLine(s, k + 1)
  }

  /** Past a character that is neither a newline nor the start of "}}",
      the search for "}}" goes on from the next position. */
  lemma CloseShift(s: string, k: nat, next: nat)
    requires next == k + 1 && k + 2 <= |s| && s[k] != '\n' && !(s[k] == '}' && s[next] == '}')
    ensures (exists j :: CloseAt(s, k, j)) <==> (exists j :: CloseAt(s, next, j))
  {
    if j :| CloseAt(s, k, j) {
      assert j != k;
      assert s[k..j] == [s[k]] + s[k + 1..j];
      assert CloseAt(s, next, j);
    }
    if j :| CloseAt(s, next, j) {
      assert s[k..j] == [s[k]] + s[k + 1..j];
      assert CloseAt(s, k, j);
    }
  }

  /** The leftmost-start search of preg_match, from position i on. */
  function PlaceholderFrom(s: string, i: nat): (r: bool)
    requires i <= |s|
    ensures r <==> exists a, b :: i <= a && PlaceholderAt(s, a, b)
    decreases |s| - i
  {
    if i + 2 > |s| then false
    else
      var here := s[i] == '{' && s[i + 1] == '{' && CloseOnLine(s, i + 2);
      if here then
        var j :| CloseAt(s, i + 2, j);
        assert PlaceholderAt(s, i, j);
        true
      else
        assert forall b :: !PlaceholderAt(s, i, b);
        PlaceholderFrom(s, i + 1)
  }

  /** preg_match('/\{\{.*?\}\}/', $content) finds a match. */
  function HasPlaceholder(s: string): (r: bool)
    ensures r <==> exists a, b :: PlaceholderAt(s, a, b)
  {
    PlaceholderFrom(s, 0)
  }

  /** Text without any '{' can hold no placeholder. */
  lemma NoBraceNoPlaceholder(s: string)
    requires '{' !in s
    ensures !HasPlaceholder(s)
  {
    forall a, b | 0 <= a < |s|
      ensures !PlaceholderAt(s, a, b)
    {
      assert s[a] in s;
    }
  }

  // ---------------------------------------------------------------------
  // Templates made of literal text and tokens, and why substitution closes
  // them.

  /** A stub viewed as literal text and references to replacement tokens. */
  datatype Segment = Text(text: string) | Token(index: nat)

  /** The text of a stub after the first `done` replacements have run:
      tokens below `done` show their value, the others still their key. */
  function Render(segs: seq<Segment>, reps: seq<Replacement>, done: nat): string
    requires forall k :: 0 <= k < |segs| && segs[k].Token? ==> segs[k].index < |reps|
    decreases |segs|
  {
    if segs == [] then ""
    else
      var head := match segs[0]
        case Text(t) => t
        case Token(i) => if i < done then reps[i].value else reps[i].search;
      head + Render(segs[1..], reps, done)
  }

  /** Literal text of a template never contains '{' and tokens name entries
      of the replacement list. */
  predicate WellFormedTemplate(segs: seq<Segment>, reps: seq<Replacement>) {
    forall k :: 0 <= k < |segs| ==>
      match segs[k]
      case Text(t) => '{' !in t
      case Token(i) => i < |reps|
  }

  /** A key in the shape of {{name}}: two opening braces, then none. */
  predicate BraceKey(key: string) {
    |key| >= 3 && key[0] == '{' && key[1] == '{' && '{' !in key[2..]
  }

  predicate IsPrefix(a: string, b: string) {
    |a| <= |b| && b[..|a|] == a
  }

  /** The replacement keys are brace keys, none a prefix of another, and
      the values contain no '{'. */
  predicate ClosingReplacements(reps: seq<Replacement>) {
    && (forall k :: 0 <= k < |reps| ==> BraceKey(reps[k].search) && '{' !in reps[k].value)
    && (forall k, l :: 0 <= k < |reps| && 0 <= l < |reps| && k != l ==>
          !IsPrefix(reps[k].search, reps[l].search))
  }

  /** No occurrence of one brace key starts inside another, different one. */
  lemma {:induction false} OtherKeySkip(other: string, rest: string, key: string, rep: string)
    requires BraceKey(key) && BraceKey(other)
    requires !IsPrefix(key, other) && !IsPrefix(other, key)
    ensures ReplaceAll(other + rest, key, rep) == other + ReplaceAll(rest, key, rep)
  {
    var s := other + rest;
    forall k | 0 <= k < |other|
      ensures !OccursAt(s, key, k)
    {
      if k + |key| <= |s| {
        if k == 0 {
          if |key| <= |other| {
            assert s[..|key|] == other[..|key|] != key;
          } else {
            assert s[..|key|][..|other|] == other != key[..|other|];
          }
        } else if k == 1 {
          assert other[2] in other[2..];
          assert s[1..1 + |key|][1] == other[2] != key[1];
        } else {
          assert other[k] in other[2..];
          assert s[k..k + |key|][0] == other[k] != key[0];
        }
      }
    }
    ReplaceAllSkip(other, rest, key, rep);
  }

  /** One str_replace step turns the tokens of entry `m` from key into value
      and leaves everything else as it was. */
  lemma {:induction false} SubstituteStep(segs: seq<Segment>, reps: seq<Replacement>, m: nat)
    requires WellFormedTemplate(segs, reps) && ClosingReplacements(reps) && m < |reps|
    ensures ReplaceAll(Render(segs, reps, m), reps[m].search, reps[m].value)
         == Render(segs, reps, m + 1)
    decreases |segs|
  {
    var key, val := reps[m].search, reps[m].value;
    if segs == [] {
      assert ReplaceAll("", key, val) == "";
    } else {
      assert WellFormedTemplate(segs[1..], reps) by {
        forall k | 0 <= k < |segs[1..]| ensures segs[1..][k] == segs[k + 1] { }
      }
      var rest := Render(segs[1..], reps, m);
      SubstituteStep(segs[1..], reps, m);
      assert segs[0] == segs[..1][0];
      match segs[0]
      case Text(t) =>
        assert '{' !in t;
        LeadAbsentSkip(t, rest, key, val);
      case Token(i) =>
        if i < m {
          LeadAbsentSkip(reps[i].value, rest, key, val);
        } else if i == m {
          var s := key + rest;
          assert |key| >= 3;
          assert s[..|key|] == key && s[|key|..] == rest;
        } else {
          OtherKeySkip(reps[i].search, rest, key, val);
        }
    }
  }

  /** After the first m replacements the stub reads Render(segs, reps, m). */
  lemma {:induction false} SubstituteRenders(segs: seq<Segment>, reps: seq<Replacement>, m: nat)
    requires WellFormedTemplate(segs, reps) && ClosingReplacements(reps) && m <= |reps|
    ensures Substitute(Render(segs, reps, 0), reps[..m]) == Render(segs, reps, m)
    decreases m
  {
    if m > 0 {
      SubstituteRenders(segs, reps, m - 1);
      assert reps[..m][..m - 1] == reps[..m - 1];
      assert reps[..m][m - 1] == reps[m - 1];
      SubstituteStep(segs, reps, m - 1);
    }
  }

  /** Every token has its value once all replacements have run. */
  lemma {:induction false} RenderedIsBraceFree(segs: seq<Segment>, reps: seq<Replacement>)
    requires WellFormedTemplate(segs, reps) && ClosingReplacements(reps)
    ensures '{' !in Render(segs, reps, |reps|)
    decreases |segs|
  {
    if segs != [] {
      assert WellFormedTemplate(segs[1..], reps) by {
        forall k | 0 <= k < |segs[1..]| ensures segs[1..][k] == segs[k + 1] { }
      }
      RenderedIsBraceFree(segs[1..], reps);
    }
  }

  /** A stub assembled from brace-free text and the replacement keys comes
      out of the replacement loop with every token replaced by its value,
      and the unresolved-placeholder check then finds nothing. */
  lemma SubstituteCloses(segs: seq<Segment>, reps: seq<Replacement>)
    requires WellFormedTemplate(segs, reps) && ClosingReplacements(reps)
    ensures Substitute(Render(segs, reps, 0), reps) == Render(segs, reps, |reps|)
    ensures !HasPlaceholder(Substitute(Render(segs, reps, 0), reps))
  {
    SubstituteRenders(segs, reps, |reps|);
    assert reps[..|reps|] == reps;
    RenderedIsBraceFree(segs, reps);
    NoBraceNoPlaceholder(Render(segs, reps, |reps|));
  }
}
