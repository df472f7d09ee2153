/** What a second addRouteResource run makes of the file the first one
    wrote: the opening-tag normalisation glues the blank line and the
    Route import onto `<?php`, that glued line is dropped, the controller
    import written with a doubled `;` is no longer recognised and is kept
    as an ordinary use line, and a fresh controller import is added. The
    route line is found and not added again. */
module RouteRerun {
  import opened PhpText
  import opened Routes

  /** No line contains the character c. */
  predicate Avoids(lines: seq<string>, c: char) {
    forall k :: 0 <= k < |lines| ==> c !in lines[k]
  }

  lemma AvoidsAppend(a: seq<string>, b: seq<string>, c: char)
    requires Avoids(a, c) && Avoids(b, c)
    ensures Avoids(a + b, c)
  {
    forall k | 0 <= k < |a + b| ensures c !in (a + b)[k] {
      if k < |a| {
        assert (a + b)[k] == a[k];
      } else {
        assert (a + b)[k] == b[k - |a|];
      }
    }
  }

  /** implode("\n") introduces no character other than the newline. */
  lemma {:induction false} JoinAvoids(lines: seq<string>, c: char)
    requires c != '\n' && Avoids(lines, c)
    ensures c !in Join(lines)
    decreases |lines|
  {
    if |lines| == 1 {
      assert c !in lines[0];
    } else if |lines| > 1 {
      assert Avoids(lines[1..], c) by {
        forall k | 0 <= k < |lines[1..]| ensures c !in lines[1..][k] {
          assert lines[1..][k] == lines[k + 1];
        }
      }
      JoinAvoids(lines[1..], c);
      assert c !in lines[0];
    }
  }

  /** The last character of an implode is that of the last line. */
  lemma {:induction false} JoinLast(lines: seq<string>)
    requires lines != [] && lines[|lines| - 1] != []
    ensures Join(lines) != [] && Join(lines)[|Join(lines)| - 1] == lines[|lines| - 1][|lines[|lines| - 1]| - 1]
    decreases |lines|
  {
    if |lines| > 1 {
      assert lines[1..][|lines[1..]| - 1] == lines[|lines| - 1];
      JoinLast(lines[1..]);
    }
  }

  // ---------------------------------------------------------------------
  // The normalisation of line 359 on text the rebuild wrote.

  /** Text without '<' holds no opening tag. */
  lemma {:induction false} OpenTagsAbsent(s: string)
    requires '<' !in s
    ensures StripOpenTags(s) == s
    decreases |s|
  {
    if |s| >= 5 {
      assert s[0] in s;
      assert s[..5][0] == s[0];
      assert forall c :: c in s[1..] ==> c in s;
      OpenTagsAbsent(s[1..]);
      assert [s[0]] + s[1..] == s;
    }
  }

  /** Text without '?' holds no closing tag. */
  lemma {:induction false} CloseTagAbsent(s: string)
    requires '?' !in s
    ensures StripCloseTag(s) == s
    decreases |s|
  {
    if |s| >= 2 {
      assert s[0] in s;
      assert s[..2][0] == s[0];
      assert forall c :: c in s[1..] ==> c in s;
      CloseTagAbsent(s[1..]);
      assert [s[0]] + s[1..] == s;
    }
  }

  /** A character that cannot start "?>" here is passed over. */
  lemma CloseTagStep(ch: char, y: string)
    requires ch != '?' || (y != [] && y[0] != '>')
    ensures StripCloseTag([ch] + y) == [ch] + StripCloseTag(y)
  {
    var s := [ch] + y;
    if |s| >= 2 {
      assert s[..2][0] == ch && s[..2][1] == s[1];
      assert s[1..] == y;
    }
  }

  /** The "?" of the opening tag is not a closing tag. */
  lemma CloseTagAfterOpenTag(y: string)
    requires '?' !in y
    ensures StripCloseTag("<?php" + y) == "<?php" + y
  {
    CloseTagAbsent(y);
    var y1 := ['p'] + y;
    CloseTagStep('p', y);
    var y2 := ['h'] + y1;
    CloseTagStep('h', y1);
    var y3 := ['p'] + y2;
    CloseTagStep('p', y2);
    var y4 := ['?'] + y3;
    CloseTagStep('?', y3);
    CloseTagStep('<', y4);
    assert ['<'] + y4 == "<?php" + y;
  }

  /** The whitespace after `<?php` is deleted, so the next line is glued
      onto the tag. */
  lemma OpenTagGlues(x: string)
    requires x != [] && !IsPcreSpace(x[0])
    ensures StripOpenTags("<?php" + "\n\n" + x) == "<?php" + StripOpenTags(x)
  {
    var s := "<?php" + "\n\n" + x;
    assert s[..5] == "<?php";
    assert s[5] == '\n' && s[6] == '\n' && s[7] == x[0];
    assert SkipSpaces(s, 7) == 7;
    assert SkipSpaces(s, 6) == 7;
    assert SkipSpaces(s, 5) == 7;
    assert s[7..] == x;
  }

  // ---------------------------------------------------------------------
  // Characters of the lines the rebuild writes.

  /** The characters the rerun argument keeps track of. */
  predicate Tracked(c: char) {
    c == '<' || c == '?' || c == '\n'
  }

  lemma RouteImportAvoids(c: char)
    requires Tracked(c)
    ensures c !in RouteImport + ";"
  {
    var a := "use Illuminate\\Support";
    var b := "\\Facades\\Route;";
    assert forall k :: 0 <= k < |a| ==> a[k] != c;
    assert forall k :: 0 <= k < |b| ==> b[k] != c;
    assert RouteImport + ";" == a + b + ";";
  }

  lemma ControllerLineAvoids(m: string, c: char)
    requires Tracked(c) && c !in m
    ensures c !in ControllerImport(m) + ";"
  {
    var a := "App\\Http\\Controllers\\";
    var b := "Controller";
    assert forall k :: 0 <= k < |a| ==> a[k] != c;
    assert forall k :: 0 <= k < |b| ==> b[k] != c;
    assert ControllerImport(m) + ";" == "use " + a + m + b + ";" + ";";
  }

  lemma RouteTextAvoids(seg: string, m: string, c: char)
    requires Tracked(c) && c !in m && c !in seg
    ensures c !in "Route::resource('" + seg + "', " + m + "Controller::class);"
  {
    var a := "Route::resource('";
    var b := "Controller::class);";
    assert forall k :: 0 <= k < |a| ==> a[k] != c;
    assert forall k :: 0 <= k < |b| ==> b[k] != c;
    assert "Route::resource('" + seg + "', " + m + "Controller::class);" == a + seg + "', " + m + b;
  }

  lemma RouteLineAvoids(m: string, table: string, c: char)
    requires Tracked(c) && c !in m && c !in table
    ensures c !in RouteLine(m, table)
  {
    assert c !in RouteSegment(m, table) by {
      assert forall k :: 0 <= k < |"h_r_s"| ==> "h_r_s"[k] != c;
    }
    RouteTextAvoids(RouteSegment(m, table), m, c);
  }

  // ---------------------------------------------------------------------
  // The file written by a first run.

  /** The assumptions under which the second run is described: kept use
      and route lines free of '<' and '?' (no PHP tags), kept route lines
      without surrounding whitespace, and a model and table name free of
      the three tracked characters. */
  predicate Tame(lines: seq<string>, m: string, table: string) {
    && Avoids(OtherUses(lines, m), '<') && Avoids(OtherUses(lines, m), '?')
    && Avoids(RouteDecls(lines, m), '<') && Avoids(RouteDecls(lines, m), '?')
    && AllSolid(RouteDecls(lines, m))
    && '<' !in m && '?' !in m && '\n' !in m
    && '<' !in table && '?' !in table && '\n' !in table
  }

  /** A non-empty string whose first and last characters are not trim
      characters: its own trim (TrimStable). */
  predicate Solid(x: string) {
    x != [] && !IsTrimChar(x[0]) && !IsTrimChar(x[|x| - 1])
  }

  /** Every line is Solid. */
  predicate AllSolid(lines: seq<string>) {
    forall k :: 0 <= k < |lines| ==> Solid(lines[k])
  }

  /** The lines after the opening tag, the blank line and the Route import. */
  function Rest(lines: seq<string>, m: string, table: string): seq<string> {
    ControllerPart(lines, m) + OtherUses(lines, m) + [""] + RouteBlock(lines, m, table)
  }

  lemma RebuiltIsFixedPlusRest(lines: seq<string>, m: string, table: string)
    ensures RebuiltLines(lines, m, table) == ["<?php", "", RouteImport + ";"] + Rest(lines, m, table)
  {
    HeaderRegroup(["<?php", "", RouteImport + ";"], ControllerPart(lines, m), OtherUses(lines, m),
      [""], RouteBlock(lines, m, table));
  }

  /** The rebuilt file split after its three opening lines. */
  lemma HeaderRegroup(f: seq<string>, c: seq<string>, u: seq<string>, e: seq<string>, r: seq<string>)
    ensures f + c + u + e + r == f + (c + u + e + r)
  {
  }

  /** Kept lines are lines of the input. */
  lemma KeptAvoids(lines: seq<string>, kinds: seq<LineKind>, kind: LineKind, c: char)
    requires |kinds| == |lines| && Avoids(lines, c)
    ensures Avoids(Kept(lines, kinds, kind), c)
  {
    var r := Kept(lines, kinds, kind);
    forall k | 0 <= k < |r| ensures c !in r[k] {
      assert r[k] in lines;
      var j :| 0 <= j < |lines| && lines[j] == r[k];
    }
  }

  lemma KeptLinesAvoid(lines: seq<string>, m: string, table: string, c: char)
    requires Avoids(lines, '\n') && Tame(lines, m, table) && Tracked(c)
    ensures Avoids(OtherUses(lines, m), c) && Avoids(RouteDecls(lines, m), c)
  {
    if c == '\n' {
      KeptAvoids(lines, Kinds(lines, m), OtherUse, c);
      KeptAvoids(lines, Kinds(lines, m), RouteDecl, c);
    }
  }

  lemma RestAvoids(lines: seq<string>, m: string, table: string, c: char)
    requires Avoids(lines, '\n') && Tame(lines, m, table) && Tracked(c)
    ensures Avoids(Rest(lines, m, table), c)
  {
    var ctrl := ControllerPart(lines, m);
    var rl := RouteLine(m, table);
    var routes := RouteDecls(lines, m);
    var tail := if rl in Trims(routes) then [] else [rl];
    assert c !in m && c !in table;
    ControllerLineAvoids(m, c);
    RouteLineAvoids(m, table, c);
    assert Avoids(ctrl, c);
    assert Avoids(tail, c);
    assert Avoids([""], c);
    KeptLinesAvoid(lines, m, table, c);
    AvoidsAppend(ctrl, OtherUses(lines, m), c);
    AvoidsAppend(ctrl + OtherUses(lines, m), [""], c);
    AvoidsAppend(routes, tail, c);
    AvoidsAppend(ctrl + OtherUses(lines, m) + [""], routes + tail, c);
  }

  /** A string with a non-trim last character. */
  predicate EndsSolid(x: string) {
    x != [] && !IsTrimChar(x[|x| - 1])
  }

  lemma RouteLineEndsSolid(m: string, table: string)
    ensures EndsSolid(RouteLine(m, table))
  {
    var rl := RouteLine(m, table);
    assert rl[|rl| - 1] == ';';
  }

  /** Appending a line unless present: the block ends with a line that ends
      in a non-trim character. */
  lemma AddedBlockEndsSolid(routes: seq<string>, rl: string)
    requires AllSolid(routes) && EndsSolid(rl)
    ensures var block := routes + (if rl in Trims(routes) then [] else [rl]);
      block != [] && EndsSolid(block[|block| - 1])
  {
    if rl in Trims(routes) {
      assert Solid(routes[|routes| - 1]);
    }
  }

  /** The route block ends with a route line. */
  lemma RouteBlockEndsSolid(lines: seq<string>, m: string, table: string)
    requires AllSolid(RouteDecls(lines, m))
    ensures RouteBlock(lines, m, table) != []
    ensures EndsSolid(RouteBlock(lines, m, table)[|RouteBlock(lines, m, table)| - 1])
  {
    RouteLineEndsSolid(m, table);
    AddedBlockEndsSolid(RouteDecls(lines, m), RouteLine(m, table));
  }

  /** The rebuilt file ends with a route line. */
  lemma RestEndsSolid(lines: seq<string>, m: string, table: string)
    requires AllSolid(RouteDecls(lines, m))
    ensures Rest(lines, m, table) != []
    ensures EndsSolid(Rest(lines, m, table)[|Rest(lines, m, table)| - 1])
  {
    var block := RouteBlock(lines, m, table);
    RouteBlockEndsSolid(lines, m, table);
    var front := ControllerPart(lines, m) + OtherUses(lines, m) + [""];
    assert Rest(lines, m, table) == front + block;
    assert (front + block)[|front + block| - 1] == block[|block| - 1];
  }

  /** trim() of a string with a non-trim first and last character and a
      newline appended removes that newline only. */
  lemma TrimTrailingNewline(a: string)
    requires a != [] && !IsTrimChar(a[0]) && EndsSolid(a)
    ensures Trim(a + "\n") == a
  {
    var s := a + "\n";
    assert s[0] == a[0];
    assert TrimLeft(s) == s;
    TrimRightAppend(a, "\n");
  }

  /** The text of a tag, a blank line, an import line and further lines. */
  lemma FixedText(ri: string, rest: seq<string>)
    requires rest != []
    ensures Join(["<?php", "", ri] + rest) + "\n" == "<?php" + "\n\n" + (ri + "\n" + Join(rest) + "\n")
  {
    var f := ["<?php", "", ri];
    JoinAppend(f, rest);
    var g := ["", ri];
    assert f[1..] == g && g[1..] == [ri];
    assert Join(g) == "" + "\n" + ri;
    assert Join(f) == "<?php" + "\n" + Join(g);
  }

  /** The two tag replacements of line 359 on such a text. */
  lemma StripTagsFixed(ri: string, j: string)
    requires ri != [] && !IsPcreSpace(ri[0])
    requires '<' !in ri && '?' !in ri && '<' !in j && '?' !in j
    ensures StripCloseTag(StripOpenTags("<?php" + "\n\n" + (ri + "\n" + j + "\n")))
         == ("<?php" + ri + "\n" + j) + "\n"
  {
    var x := ri + "\n" + j + "\n";
    assert '<' !in x && '?' !in x;
    assert x[0] == ri[0];
    OpenTagGlues(x);
    OpenTagsAbsent(x);
    CloseTagAfterOpenTag(x);
    Assoc("<?php", ri, "\n", j);
  }

  lemma Assoc(p: string, r: string, n: string, j: string)
    ensures p + (r + n + j + n) == (p + r + n + j) + n
  {
  }

  /** The glued text keeps the non-trim last character of the rest. */
  lemma GluedEndsSolid(ri: string, j: string)
    requires EndsSolid(j)
    ensures ("<?php" + ri + "\n" + j)[0] == '<' && EndsSolid("<?php" + ri + "\n" + j)
  {
    var a := "<?php" + ri + "\n" + j;
    assert a[|a| - 1] == j[|j| - 1];
  }

  /** Lines 359-361 on such a text: the import line is glued onto the tag,
      the rest is untouched, and one final newline remains. */
  lemma NormalizeFixed(lines: seq<string>, ri: string, rest: seq<string>)
    requires lines == ["<?php", "", ri] + rest
    requires ri != [] && !IsPcreSpace(ri[0])
    requires '<' !in ri && '?' !in ri && Avoids(rest, '<') && Avoids(rest, '?')
    requires rest != [] && EndsSolid(rest[|rest| - 1])
    ensures Normalize(Join(lines) + "\n") == Join(["<?php" + ri] + rest + [""])
  {
    var j := Join(rest);
    FixedText(ri, rest);
    JoinAvoids(rest, '<');
    JoinAvoids(rest, '?');
    StripTagsFixed(ri, j);
    JoinLast(rest);
    GluedEndsSolid(ri, j);
    TrimTrailingNewline("<?php" + ri + "\n" + j);
    JoinAppend(["<?php" + ri], rest);
    JoinSnocEmpty(["<?php" + ri] + rest);
  }

  /** The opening line of the second run: the tag with the Route import
      glued onto it. */
  function GluedLine(): string {
    "<?php" + (RouteImport + ";")
  }

  /** What the normalisation needs to know of the lines after the Route
      import: no tracked character, and a last line that ends in a
      non-trim character. */
  predicate RestShape(rest: seq<string>) {
    && Avoids(rest, '<') && Avoids(rest, '?') && Avoids(rest, '\n')
    && rest != [] && EndsSolid(rest[|rest| - 1])
  }

  lemma RestFacts(lines: seq<string>, m: string, table: string)
    requires Avoids(lines, '\n') && Tame(lines, m, table)
    ensures RestShape(Rest(lines, m, table))
  {
    RestAvoids(lines, m, table, '<');
    RestAvoids(lines, m, table, '?');
    RestAvoids(lines, m, table, '\n');
    RestEndsSolid(lines, m, table);
  }

  /** The Route import line as written: it starts with 'u' and holds none
      of the tracked characters. */
  lemma RouteImportFacts()
    ensures RouteImport + ";" != [] && (RouteImport + ";")[0] == 'u'
    ensures '<' !in RouteImport + ";" && '?' !in RouteImport + ";"
  {
    RouteImportAvoids('<');
    RouteImportAvoids('?');
  }

  /** The three lines every rebuilt file starts with. */
  function Fixed(): seq<string> {
    ["<?php", "", RouteImport + ";"]
  }

  /** Lines 359-361 applied to a file that starts like a rebuilt one: the
      lines the next run classifies. */
  lemma RestLines(rest: seq<string>)
    requires RestShape(rest)
    ensures Split(Normalize(Join(Fixed() + rest) + "\n")) == [GluedLine()] + rest + [""]
  {
    NormalizeSteady(rest);
    GluedLinesAvoid(rest);
    SplitJoin([GluedLine()] + rest + [""]);
  }

  lemma NormalizeSteady(rest: seq<string>)
    requires RestShape(rest)
    ensures Normalize(Join(Fixed() + rest) + "\n") == Join([GluedLine()] + rest + [""])
  {
    RouteImportFacts();
    NormalizeFixed(Fixed() + rest, RouteImport + ";", rest);
  }

  lemma GluedLinesAvoid(rest: seq<string>)
    requires Avoids(rest, '\n')
    ensures Avoids([GluedLine()] + rest + [""], '\n')
  {
    RouteImportAvoids('\n');
    assert Avoids([GluedLine()], '\n');
    assert Avoids([""], '\n');
    AvoidsAppend([GluedLine()], rest, '\n');
    AvoidsAppend([GluedLine()] + rest, [""], '\n');
  }

  // ---------------------------------------------------------------------
  // How the second run classifies those lines.

  /** The tag with anything glued onto it is neither a use line nor a
      route line: it is dropped. */
  lemma GluedDropped(x: string, m: string)
    requires EndsSolid(x)
    ensures Classify("<?php" + x, m) == Dropped
  {
    var t := "<?php" + x;
    assert t[0] == '<' && t[|t| - 1] == x[|x| - 1];
    TrimStable(t);
    assert t[..3][0] == '<';
    assert |t| > 5;
  }

  /** A trimmed use statement other than the two recognised imports. */
  lemma UseLineIsOtherUse(t: string, m: string)
    requires Solid(t) && IsUseStatement(t)
    requires t != RouteImport && t != ControllerImport(m)
    ensures Classify(t, m) == OtherUse
  {
    TrimStable(t);
    assert t[0] == t[..3][0];
  }

  /** The controller import as written starts with "use " and ends with ';'. */
  lemma DoubledImportShape(m: string)
    ensures Solid(ControllerImport(m) + ";")
    ensures IsUseStatement(ControllerImport(m) + ";")
  {
    var c := ControllerImport(m) + ";";
    assert c[0] == 'u' && c[|c| - 1] == ';';
    assert c[..3] == "use" && c[3] == ' ';
    assert c[|c| - 1] in c[4..];
  }

  /** The controller import as written is not the Route import. */
  lemma DoubledImportNotRouteImport(m: string)
    ensures ControllerImport(m) + ";" != RouteImport
  {
    var c := ControllerImport(m) + ";";
    assert c[4] == 'A';
    assert RouteImport[4] == 'I';
  }

  /** The controller import as written, with its doubled ';', is an
      ordinary use line: it equals neither recognised import. */
  lemma DoubledImportIsOtherUse(m: string)
    ensures Classify(ControllerImport(m) + ";", m) == OtherUse
  {
    DoubledImportShape(m);
    DoubledImportNotRouteImport(m);
    assert |ControllerImport(m) + ";"| != |ControllerImport(m)|;
    UseLineIsOtherUse(ControllerImport(m) + ";", m);
  }

  /** A trimmed line starting with "Route::" is a route line. */
  lemma RouteStatementIsDecl(t: string, m: string)
    requires Solid(t) && IsRouteStatement(t)
    ensures Classify(t, m) == RouteDecl
  {
    TrimStable(t);
    assert t[0] == t[..7][0];
    assert t[..3][0] == 'R';
  }

  lemma RouteLineSolid(m: string, table: string)
    ensures Solid(RouteLine(m, table))
  {
    var rl := RouteLine(m, table);
    assert rl[0] == 'R' && rl[|rl| - 1] == ';';
  }

  lemma RouteLineStarts(m: string, table: string)
    ensures IsRouteStatement(RouteLine(m, table)) && Solid(RouteLine(m, table))
  {
    var rl := RouteLine(m, table);
    assert rl[..7] == "Route::";
    assert rl[0] == 'R' && rl[|rl| - 1] == ';';
  }

  /** The route line is a route line. */
  lemma RouteLineIsDecl(m: string, table: string)
    ensures Classify(RouteLine(m, table), m) == RouteDecl
  {
    RouteLineStarts(m, table);
    RouteStatementIsDecl(RouteLine(m, table), m);
  }

  /** Every line of x has the given kind. */
  predicate Uniform(x: seq<string>, m: string, kind: LineKind) {
    forall k :: 0 <= k < |x| ==> Classify(x[k], m) == kind
  }

  lemma UniformAppend(a: seq<string>, b: seq<string>, m: string, kind: LineKind)
    requires Uniform(a, m, kind) && Uniform(b, m, kind)
    ensures Uniform(a + b, m, kind)
  {
    forall k | 0 <= k < |a + b| ensures Classify((a + b)[k], m) == kind {
      if k < |a| {
        assert (a + b)[k] == a[k];
      } else {
        assert (a + b)[k] == b[k - |a|];
      }
    }
  }

  /** The lines a kind keeps all have that kind. */
  lemma KeptUniformKind(lines: seq<string>, m: string, kind: LineKind)
    ensures Uniform(Kept(lines, Kinds(lines, m), kind), m, kind)
  {
    KeptHaveKind(lines, m, kind);
  }

  /** Lines of one kind keep themselves under that kind and nothing under
      any other. */
  lemma KeptOfUniform(x: seq<string>, m: string, kind: LineKind, want: LineKind)
    requires Uniform(x, m, kind)
    ensures Kept(x, Kinds(x, m), want) == if want == kind then x else []
  {
    KeptUniform(x, Kinds(x, m), kind, want);
  }

  /** Classification and filtering distribute over concatenation. */
  lemma KeptOver(a: seq<string>, b: seq<string>, m: string, want: LineKind)
    ensures Kept(a + b, Kinds(a + b, m), want) == Kept(a, Kinds(a, m), want) + Kept(b, Kinds(b, m), want)
  {
    KindsAppend(a, b, m);
    KeptAppend(a, Kinds(a, m), b, Kinds(b, m), want);
  }

  /** A line of some kind is kept under that kind. */
  lemma {:induction false} KeptHas(lines: seq<string>, kinds: seq<LineKind>, kind: LineKind, k: nat)
    requires |kinds| == |lines| && k < |lines| && kinds[k] == kind
    ensures lines[k] in Kept(lines, kinds, kind)
    decreases |lines|
  {
    var n := |lines| - 1;
    if k < n {
      assert lines[..n][k] == lines[k] && kinds[..n][k] == kinds[k];
      KeptHas(lines[..n], kinds[..n], kind, k);
    }
  }

  /** $hasControllerUse holds exactly when a line is kept as the
      controller import. */
  lemma ControllerUseKept(lines: seq<string>, m: string)
    ensures HasControllerUse(lines, m) <==> Kept(lines, Kinds(lines, m), ControllerUse) != []
  {
    var kept := Kept(lines, Kinds(lines, m), ControllerUse);
    if HasControllerUse(lines, m) {
      var k :| 0 <= k < |lines| && Classify(lines[k], m) == ControllerUse;
      KeptHas(lines, Kinds(lines, m), ControllerUse, k);
    }
    if kept != [] {
      KeptHaveKind(lines, m, ControllerUse);
      assert Classify(kept[0], m) == ControllerUse;
      assert kept[0] in lines;
    }
  }

  /** The Route import as written, with its doubled ';', is an ordinary
      use line. */
  lemma RouteImportLineIsOtherUse(m: string)
    ensures Classify(RouteImport + ";", m) == OtherUse
  {
    var t := RouteImport + ";";
    assert t[0] == 'u' && t[|t| - 1] == ';';
    assert t[..3] == "use" && t[3] == ' ';
    assert t[|t| - 1] in t[4..];
    assert |t| != |RouteImport|;
    assert t[4] == 'I' && ControllerImport(m)[4] == 'A';
    UseLineIsOtherUse(t, m);
  }

  /** The controller import with a single ';' is recognised as such. */
  lemma ControllerImportIsControllerUse(m: string)
    ensures Classify(ControllerImport(m), m) == ControllerUse
  {
    var t := ControllerImport(m);
    assert t[0] == 'u' && t[|t| - 1] == ';';
    assert t[..3] == "use" && t[3] == ' ';
    assert t[|t| - 1] in t[4..];
    assert t[4] == 'A' && RouteImport[4] == 'I';
    TrimStable(t);
  }

  /** A file that already holds the controller import (with one ';') loses
      it: lines 373-377 only set the flag, lines 388-390 then add nothing,
      and no line of the rebuilt file reads as that import. */
  lemma ExistingControllerImportDropped(lines: seq<string>, m: string, table: string)
    requires HasControllerUse(lines, m)
    ensures !HasControllerUse(RebuiltLines(lines, m, table), m)
    ensures ControllerImport(m) !in RebuiltLines(lines, m, table)
  {
    var q := [RouteImport + ";"] + OtherUses(lines, m);
    var s := RouteBlock(lines, m, table);
    HeaderAssoc("<?php", "", RouteImport + ";", ControllerPart(lines, m), OtherUses(lines, m), s, []);
    OpeningUniform(m);
    RouteImportLineIsOtherUse(m);
    KeptUniformKind(lines, m, OtherUse);
    UniformAppend([RouteImport + ";"], OtherUses(lines, m), m, OtherUse);
    BlankUniform(m);
    BlockUniform(lines, m, table);
    NoControllerUseAmong(["<?php", ""], q, [""], s, [], m);
    ControllerImportIsControllerUse(m);
    NotAmong(RebuiltLines(lines, m, table), ControllerImport(m), m);
  }

  /** The opening tag and the blank line are skipped. */
  lemma OpeningUniform(m: string)
    ensures Uniform(["<?php", ""], m, Skipped)
  {
    TagSkipped(m);
    BlankUniform(m);
  }

  lemma TagSkipped(m: string)
    ensures Classify("<?php", m) == Skipped
  {
    var t := "<?php";
    assert t[0] == '<' && t[|t| - 1] == 'p';
    TrimStable(t);
  }

  /** Five pieces of which none reads as the controller import. */
  lemma NoControllerUseAmong(p: seq<string>, q: seq<string>, r: seq<string>, s: seq<string>, t: seq<string>,
                             m: string)
    requires Uniform(p, m, Skipped) && Uniform(q, m, OtherUse) && Uniform(r, m, Skipped)
    requires Uniform(s, m, RouteDecl) && t == []
    ensures !HasControllerUse(p + q + r + s + t, m)
  {
    KeptFive(p, q, r, s, t, m, ControllerUse);
    KeptOfUniform(p, m, Skipped, ControllerUse);
    KeptOfUniform(q, m, OtherUse, ControllerUse);
    KeptOfUniform(r, m, Skipped, ControllerUse);
    KeptOfUniform(s, m, RouteDecl, ControllerUse);
    ControllerUseKept(p + q + r + s + t, m);
  }

  /** A line that reads as the controller import is not among lines none
      of which does. */
  lemma NotAmong(lines: seq<string>, x: string, m: string)
    requires !HasControllerUse(lines, m) && Classify(x, m) == ControllerUse
    ensures x !in lines
  {
  }

  /** Filtering five consecutive pieces. */
  lemma KeptFive(p: seq<string>, q: seq<string>, r: seq<string>, s: seq<string>, t: seq<string>,
                 m: string, want: LineKind)
    ensures Kept(p + q + r + s + t, Kinds(p + q + r + s + t, m), want)
         == Kept(p, Kinds(p, m), want) + Kept(q, Kinds(q, m), want) + Kept(r, Kinds(r, m), want)
          + Kept(s, Kinds(s, m), want) + Kept(t, Kinds(t, m), want)
  {
    KeptOver(p + q + r + s, t, m, want);
    KeptOver(p + q + r, s, m, want);
    KeptOver(p + q, r, m, want);
    KeptOver(p, q, m, want);
  }

  lemma DropEmpties(a: seq<string>, b: seq<string>, c: seq<string>, d: seq<string>, e: seq<string>,
                    x: seq<string>, y: seq<string>)
    requires a == [] && b == x && c == [] && d == y && e == []
    ensures a + b + c + d + e == x + y
  {
    assert a + b + c + d + e == b + d;
  }

  /** Filtering five uniform pieces: a dropped line, use lines, a blank
      line, route lines and a blank line. */
  lemma KeptFiveUniform(p: seq<string>, q: seq<string>, r: seq<string>, s: seq<string>, t: seq<string>,
                        m: string, want: LineKind)
    requires Uniform(p, m, Dropped) && Uniform(q, m, OtherUse) && Uniform(r, m, Skipped)
    requires Uniform(s, m, RouteDecl) && Uniform(t, m, Skipped)
    requires want != Dropped && want != Skipped
    ensures Kept(p + q + r + s + t, Kinds(p + q + r + s + t, m), want)
         == (if want == OtherUse then q else []) + (if want == RouteDecl then s else [])
  {
    KeptFive(p, q, r, s, t, m, want);
    KeptOfUniform(p, m, Dropped, want);
    KeptOfUniform(q, m, OtherUse, want);
    KeptOfUniform(r, m, Skipped, want);
    KeptOfUniform(s, m, RouteDecl, want);
    KeptOfUniform(t, m, Skipped, want);
    DropEmpties(Kept(p, Kinds(p, m), want), Kept(q, Kinds(q, m), want), Kept(r, Kinds(r, m), want),
                Kept(s, Kinds(s, m), want), Kept(t, Kinds(t, m), want),
                if want == OtherUse then q else [], if want == RouteDecl then s else []);
  }

  /** The second run's view of those five pieces. */
  lemma FivePieces(p: seq<string>, q: seq<string>, r: seq<string>, s: seq<string>, t: seq<string>, m: string)
    requires Uniform(p, m, Dropped) && Uniform(q, m, OtherUse) && Uniform(r, m, Skipped)
    requires Uniform(s, m, RouteDecl) && Uniform(t, m, Skipped)
    ensures OtherUses(p + q + r + s + t, m) == q
    ensures RouteDecls(p + q + r + s + t, m) == s
    ensures !HasControllerUse(p + q + r + s + t, m)
  {
    KeptFiveUniform(p, q, r, s, t, m, OtherUse);
    KeptFiveUniform(p, q, r, s, t, m, RouteDecl);
    KeptFiveUniform(p, q, r, s, t, m, ControllerUse);
    ControllerUseKept(p + q + r + s + t, m);
  }

  // ---------------------------------------------------------------------
  // Every run after the first.

  /** A rebuilt file's lines after the Route import: use lines, a blank
      line, then route lines among which the resource route already is. */
  predicate Steady(q: seq<string>, s: seq<string>, m: string, table: string) {
    && Uniform(q, m, OtherUse) && Uniform(s, m, RouteDecl)
    && RouteLine(m, table) in Trims(s) && RestShape(q + [""] + s)
  }

  lemma GluedUniform(m: string)
    ensures Uniform([GluedLine()], m, Dropped)
  {
    assert EndsSolid(RouteImport + ";") by {
      assert (RouteImport + ";")[|RouteImport + ";"| - 1] == ';';
    }
    GluedDropped(RouteImport + ";", m);
  }

  lemma BlankUniform(m: string)
    ensures Uniform([""], m, Skipped)
  {
    assert Trim("") == "";
  }

  /** What a run sees in a steady file: the use lines (no controller import
      among them, since the doubled one is not recognised) and the route
      lines. */
  lemma SteadyKinds(q: seq<string>, s: seq<string>, m: string)
    requires Uniform(q, m, OtherUse) && Uniform(s, m, RouteDecl)
    ensures OtherUses([GluedLine()] + q + [""] + s + [""], m) == q
    ensures RouteDecls([GluedLine()] + q + [""] + s + [""], m) == s
    ensures !HasControllerUse([GluedLine()] + q + [""] + s + [""], m)
  {
    GluedUniform(m);
    BlankUniform(m);
    FivePieces([GluedLine()], q, [""], s, [""], m);
  }

  /** The lines a run writes for a steady file. */
  lemma SteadyRebuilt(q: seq<string>, s: seq<string>, m: string, table: string)
    requires Uniform(q, m, OtherUse) && Uniform(s, m, RouteDecl) && RouteLine(m, table) in Trims(s)
    ensures RebuiltLines([GluedLine()] + q + [""] + s + [""], m, table)
         == Fixed() + (([ControllerImport(m) + ";"] + q) + [""] + s)
  {
    var lines := [GluedLine()] + q + [""] + s + [""];
    SteadyKinds(q, s, m);
    assert ControllerPart(lines, m) == [ControllerImport(m) + ";"];
    assert RouteBlock(lines, m, table) == s;
    HeaderRegroup(Fixed(), [ControllerImport(m) + ";"], q, [""], s);
  }

  /** Lines 355-393 on a steady file: one more controller import line, the
      rest unchanged. */
  lemma RerunSteady(q: seq<string>, s: seq<string>, m: string, table: string)
    requires Steady(q, s, m, table)
    ensures RebuildRoutes(Join(Fixed() + (q + [""] + s)) + "\n", m, table)
         == Join(Fixed() + (([ControllerImport(m) + ";"] + q) + [""] + s)) + "\n"
  {
    RestLines(q + [""] + s);
    PiecesRegroup([GluedLine()], q, [""], s, [""]);
    SteadyRebuilt(q, s, m, table);
    RebuildVia(Join(Fixed() + (q + [""] + s)) + "\n", [GluedLine()] + q + [""] + s + [""], m, table);
  }

  /** The lines a rerun classifies, as five consecutive pieces. */
  lemma PiecesRegroup(p: seq<string>, q: seq<string>, r: seq<string>, s: seq<string>, t: seq<string>)
    ensures p + (q + r + s) + t == p + q + r + s + t
  {
  }

  lemma RebuildVia(c: string, lines: seq<string>, m: string, table: string)
    requires Split(Normalize(c)) == lines
    ensures RebuildRoutes(c, m, table) == Join(RebuiltLines(lines, m, table)) + "\n"
  {
  }

  /** The doubled controller import keeps a file steady. */
  lemma SteadyStep(q: seq<string>, s: seq<string>, m: string, table: string)
    requires Steady(q, s, m, table) && Plain(m, table)
    ensures Steady([ControllerImport(m) + ";"] + q, s, m, table)
  {
    DoubledImportIsOtherUse(m);
    assert Uniform([ControllerImport(m) + ";"], m, OtherUse);
    ControllerLineAvoids(m, '<');
    ControllerLineAvoids(m, '?');
    ControllerLineAvoids(m, '\n');
    SteadyCons(ControllerImport(m) + ";", q, s, m, table);
  }

  /** An ordinary use line free of the tracked characters, put in front of
      the use lines, keeps a file steady. */
  lemma SteadyCons(x: string, q: seq<string>, s: seq<string>, m: string, table: string)
    requires Steady(q, s, m, table) && Uniform([x], m, OtherUse)
    requires '<' !in x && '?' !in x && '\n' !in x
    ensures Steady([x] + q, s, m, table)
  {
    UniformAppend([x], q, m, OtherUse);
    ShapeStep(x, q, s);
  }

  /** A line free of the tracked characters, put in front, keeps the shape
      of the lines after the Route import. */
  lemma ShapeStep(x: string, q: seq<string>, s: seq<string>)
    requires RestShape(q + [""] + s) && '<' !in x && '?' !in x && '\n' !in x
    ensures RestShape([x] + q + [""] + s)
  {
    var rest := q + [""] + s;
    assert [x] + q + [""] + s == [x] + rest;
    AvoidsAppend([x], rest, '<');
    AvoidsAppend([x], rest, '?');
    AvoidsAppend([x], rest, '\n');
    assert ([x] + rest)[|[x] + rest| - 1] == rest[|rest| - 1];
  }

  /** The file the first run writes is steady. */
  lemma FirstRunSteady(lines: seq<string>, m: string, table: string)
    requires Avoids(lines, '\n') && Tame(lines, m, table)
    ensures Steady(ControllerPart(lines, m) + OtherUses(lines, m), RouteBlock(lines, m, table), m, table)
    ensures Rest(lines, m, table) == ControllerPart(lines, m) + OtherUses(lines, m) + [""] + RouteBlock(lines, m, table)
  {
    if !HasControllerUse(lines, m) {
      DoubledImportIsOtherUse(m);
    }
    KeptUniformKind(lines, m, OtherUse);
    UniformAppend(ControllerPart(lines, m), OtherUses(lines, m), m, OtherUse);
    BlockUniform(lines, m, table);
    RouteInBlock(lines, m, table);
    RestFacts(lines, m, table);
  }

  lemma BlockUniform(lines: seq<string>, m: string, table: string)
    ensures Uniform(RouteBlock(lines, m, table), m, RouteDecl)
  {
    var routes := RouteDecls(lines, m);
    var rl := RouteLine(m, table);
    KeptUniformKind(lines, m, RouteDecl);
    RouteLineIsDecl(m, table);
    UniformAppend(routes, if rl in Trims(routes) then [] else [rl], m, RouteDecl);
  }

  /** After a rebuild the resource route is among the trimmed route lines. */
  lemma RouteInBlock(lines: seq<string>, m: string, table: string)
    ensures RouteLine(m, table) in Trims(RouteBlock(lines, m, table))
  {
    RouteLineSolid(m, table);
    AppendedIn(RouteDecls(lines, m), RouteLine(m, table));
  }

  /** A line that is its own trim, appended unless its trim is present, is
      present afterwards. */
  lemma AppendedIn(routes: seq<string>, rl: string)
    requires Solid(rl)
    ensures rl in Trims(routes + (if rl in Trims(routes) then [] else [rl]))
  {
    TrimStable(rl);
    var tail := if rl in Trims(routes) then [] else [rl];
    TrimsAppend(routes, tail);
    if tail != [] {
      assert Trims(tail) == [rl];
    }
  }

  // ---------------------------------------------------------------------
  // Two runs.

  /** The use lines the first run writes after the Route import. */
  function FirstUses(c: string, m: string): seq<string> {
    ControllerPart(Split(Normalize(c)), m) + OtherUses(Split(Normalize(c)), m)
  }

  /** The route lines the first run writes. */
  function FirstRoutes(c: string, m: string, table: string): seq<string> {
    RouteBlock(Split(Normalize(c)), m, table)
  }

  lemma FirstRun(c: string, m: string, table: string)
    requires Tame(Split(Normalize(c)), m, table)
    ensures Steady(FirstUses(c, m), FirstRoutes(c, m, table), m, table)
    ensures RebuildRoutes(c, m, table)
         == Join(Fixed() + (FirstUses(c, m) + [""] + FirstRoutes(c, m, table))) + "\n"
  {
    var lines := Split(Normalize(c));
    assert Avoids(lines, '\n');
    RebuiltIsFixedPlusRest(lines, m, table);
    FirstRunSteady(lines, m, table);
  }

  /** A second run on the file the first run wrote inserts one more copy
      of the controller import (with its doubled semicolon) after the Route
      import and leaves everything else as the first run wrote it: the route
      lines, and so the resource route, stay the same. By SteadyStep and
      RerunSteady every further run does the same again. */
  lemma TwoRuns(c: string, m: string, table: string)
    requires Tame(Split(Normalize(c)), m, table)
    ensures RebuildRoutes(RebuildRoutes(c, m, table), m, table)
         == Join(Fixed() + (([ControllerImport(m) + ";"] + FirstUses(c, m)) + [""] + FirstRoutes(c, m, table))) + "\n"
  {
    FirstRun(c, m, table);
    RerunSteady(FirstUses(c, m), FirstRoutes(c, m, table), m, table);
  }

  /** Two texts with no newline inside their lines and a different number
      of lines differ. */
  lemma JoinedDiffer(a: seq<string>, b: seq<string>)
    requires a != [] && b != [] && Avoids(a, '\n') && Avoids(b, '\n') && |a| != |b|
    ensures Join(a) + "\n" != Join(b) + "\n"
  {
    JoinSnocEmpty(a);
    JoinSnocEmpty(b);
    assert Avoids([""], '\n');
    AvoidsAppend(a, [""], '\n');
    AvoidsAppend(b, [""], '\n');
    SplitJoin(a + [""]);
    SplitJoin(b + [""]);
  }

  lemma FixedAvoids(rest: seq<string>)
    requires Avoids(rest, '\n')
    ensures Avoids(Fixed() + rest, '\n')
  {
    RouteImportAvoids('\n');
    assert Avoids(Fixed(), '\n');
    AvoidsAppend(Fixed(), rest, '\n');
  }

  /** addRouteResource is not idempotent: a second run on the file the
      first wrote changes it again. */
  lemma RerunChanges(c: string, m: string, table: string)
    requires Tame(Split(Normalize(c)), m, table)
    ensures RebuildRoutes(RebuildRoutes(c, m, table), m, table) != RebuildRoutes(c, m, table)
  {
    FirstRun(c, m, table);
    TwoRuns(c, m, table);
    TamePlain(Split(Normalize(c)), m, table);
    SteadyStep(FirstUses(c, m), FirstRoutes(c, m, table), m, table);
    var one := FirstUses(c, m) + [""] + FirstRoutes(c, m, table);
    var two := ([ControllerImport(m) + ";"] + FirstUses(c, m)) + [""] + FirstRoutes(c, m, table);
    FixedAvoids(one);
    FixedAvoids(two);
    JoinedDiffer(Fixed() + two, Fixed() + one);
  }

  /** The model and table names hold none of the tracked characters. */
  predicate Plain(m: string, table: string) {
    '<' !in m && '?' !in m && '\n' !in m && '<' !in table && '?' !in table && '\n' !in table
  }

  lemma TamePlain(lines: seq<string>, m: string, table: string)
    requires Tame(lines, m, table)
    ensures Plain(m, table)
  {
  }
}
