/** addRouteResource: routes/api.php is normalised, split into lines,
    its `use` lines and `Route::` lines are kept, everything else is
    dropped, and the file is written back in a fixed order with the
    resource route of the model added unless it is already there. */
module Routes {
  import opened PhpText
  import opened Planner

  /** $useRouteStatement */
  const RouteImport := "use Illuminate\\Support" + "\\Facades\\Route;"

  /** $controllerClass and $useControllerStatement */
  function ControllerClass(m: string): string {
    "App\\Http\\Controllers\\" + m + "Controller"
  }
  function ControllerImport(m: string): string {
    "use " + ControllerClass(m) + ";"
  }

  /** $routeTableName: the special case for the model name HR. */
  function RouteSegment(m: string, table: string): string {
    if m == "HR" then "h_r_s" else table
  }

  /** $routeCode, which starts with a newline. */
  function RouteCode(m: string, table: string): string {
    "\nRoute::resource('" + RouteSegment(m, table) + "', " + m + "Controller::class);"
  }

  /** The line that is looked for and added: the route code without its
      leading newline (RouteLineIsTrimmedCode). */
  function RouteLine(m: string, table: string): string {
    "Route::resource('" + RouteSegment(m, table) + "', " + m + "Controller::class);"
  }

  /** The line looked for and added is trim($routeCode). */
  lemma RouteLineIsTrimmedCode(m: string, table: string)
    ensures RouteLine(m, table) == Trim(RouteCode(m, table))
  {
    var x := RouteLine(m, table);
    assert RouteCode(m, table) == "\n" + x;
    assert x[0] == 'R' && x[|x| - 1] == ';';
    TrimNewlineLead(x);
  }

  /** The route names the table, except for the model HR, whose route
      segment is h_r_s whatever the table. */
  lemma RouteSegmentRule(m: string, t1: string, t2: string)
    ensures RouteLine("HR", t1) == RouteLine("HR", t2)
    ensures m != "HR" ==> (RouteLine(m, t1) == RouteLine(m, t2) <==> t1 == t2)
  {
    if m != "HR" {
      var pre, mid := "Route::resource('", "', ";
      var post := mid + m + "Controller::class);";
      assert RouteLine(m, t1) == pre + t1 + post;
      assert RouteLine(m, t2) == pre + t2 + post;
      MiddleDetermined(pre, t1, t2, post);
    }
  }

  /** Strings with the same ends agree when they have the same middle. */
  lemma MiddleDetermined(pre: string, t1: string, t2: string, post: string)
    ensures pre + t1 + post == pre + t2 + post <==> t1 == t2
  {
    if pre + t1 + post == pre + t2 + post {
      var s := pre + t1 + post;
      assert s[|pre|..|s| - |post|] == t1;
      assert (pre + t2 + post)[|pre|..|s| - |post|] == t2;
    }
  }

  // ---------------------------------------------------------------------
  // Normalisation of the file before it is split into lines.

  /** The first preg_replace of line 359: every opening tag `<?php` loses
      the whitespace (\s*) after it. */
  function StripOpenTags(s: string): string
    decreases |s|
  {
    if |s| < 5 then s
    else if s[..5] == "<?php" then "<?php" + StripOpenTags(s[SkipSpaces(s, 5)..])
    else [s[0]] + StripOpenTags(s[1..])
  }

  predicate AllSpaces(t: string) {
    forall k :: 0 <= k < |t| ==> IsPcreSpace(t[k])
  }

  /** preg_replace('/\?>\s*$/', '', $content): the leftmost "?>" that only
      whitespace follows is cut off with that whitespace. */
  function StripCloseTag(s: string): string
    decreases |s|
  {
    if |s| < 2 then s
    else if s[..2] == "?>" && AllSpaces(s[2..]) then ""
    else [s[0]] + StripCloseTag(s[1..])
  }

  /** Lines 359-361: tags stripped, trimmed, one final newline. */
  function Normalize(s: string): string {
    Trim(StripCloseTag(StripOpenTags(s))) + "\n"
  }

  // ---------------------------------------------------------------------
  // Line classification (the foreach of lines 369-384).

  /** preg_match('/^use\s+.*;/', $t) for a line without newlines. */
  predicate IsUseStatement(t: string) {
    |t| >= 4 && t[..3] == "use" && IsPcreSpace(t[3]) && ';' in t[4..]
  }

  /** preg_match('/^Route::/', $t) */
  predicate IsRouteStatement(t: string) {
    StartsWith(t, "Route::")
  }

  datatype LineKind = Skipped | RouteUse | ControllerUse | OtherUse | RouteDecl | Dropped

  /** What the loop does with one raw line: the tests look at the trimmed
      line; empty() also holds for "0". */
  function Classify(line: string, m: string): LineKind {
    var t := Trim(line);
    if t == "<?php" || t == "" || t == "0" then Skipped
    else if IsUseStatement(t) then
      if t == RouteImport then RouteUse
      else if t == ControllerImport(m) then ControllerUse
      else OtherUse
    else if IsRouteStatement(t) then RouteDecl
    else Dropped
  }

  /** The kind of every line. */
  function Kinds(lines: seq<string>, m: string): (r: seq<LineKind>)
    ensures |r| == |lines|
    ensures forall k :: 0 <= k < |lines| ==> r[k] == Classify(lines[k], m)
    decreases |lines|
  {
    if lines == [] then []
    else Kinds(lines[..|lines| - 1], m) + [Classify(lines[|lines| - 1], m)]
  }

  /** The lines of one kind, in their original order. */
  function Kept(lines: seq<string>, kinds: seq<LineKind>, kind: LineKind): (r: seq<string>)
    requires |kinds| == |lines|
    ensures |r| <= |lines|
    ensures forall k :: 0 <= k < |r| ==> r[k] in lines
    decreases |lines|
  {
    if lines == [] then []
    else
      var n := |lines| - 1;
      Kept(lines[..n], kinds[..n], kind) + (if kinds[n] == kind then [lines[n]] else [])
  }

  /** $useStatements */
  function OtherUses(lines: seq<string>, m: string): seq<string> {
    Kept(lines, Kinds(lines, m), OtherUse)
  }

  /** $routeStatements */
  function RouteDecls(lines: seq<string>, m: string): seq<string> {
    Kept(lines, Kinds(lines, m), RouteDecl)
  }

  /** $hasControllerUse */
  predicate HasControllerUse(lines: seq<string>, m: string) {
    exists k :: 0 <= k < |lines| && Classify(lines[k], m) == ControllerUse
  }

  /** array_map('trim', ...) */
  function Trims(lines: seq<string>): (r: seq<string>)
    ensures |r| == |lines|
    ensures forall k :: 0 <= k < |lines| ==> r[k] == Trim(lines[k])
    decreases |lines|
  {
    if lines == [] then [] else [Trim(lines[0])] + Trims(lines[1..])
  }

  /** The controller import line, unless one was found. */
  function ControllerPart(lines: seq<string>, m: string): seq<string> {
    if HasControllerUse(lines, m) then [] else [ControllerImport(m) + ";"]
  }

  /** $newContent up to the blank line before the routes. */
  function Header(lines: seq<string>, m: string): seq<string> {
    ["<?php", "", RouteImport + ";"] + ControllerPart(lines, m) + OtherUses(lines, m) + [""]
  }

  /** The existing routes, then the resource route unless an existing
      route already reads the same after trimming. */
  function RouteBlock(lines: seq<string>, m: string, table: string): seq<string> {
    var routes := RouteDecls(lines, m);
    routes + (if RouteLine(m, table) in Trims(routes) then [] else [RouteLine(m, table)])
  }

  /** $newContent */
  function RebuiltLines(lines: seq<string>, m: string, table: string): seq<string> {
    Header(lines, m) + RouteBlock(lines, m, table)
  }

  /** The text written back to routes/api.php. */
  function RebuildRoutes(content: string, m: string, table: string): string {
    Join(RebuiltLines(Split(Normalize(content)), m, table)) + "\n"
  }

  /** The state after addRouteResource: an unwritable (or missing) routes
      file is left alone; otherwise it is rebuilt. */
  function AddRouteSpec(fs: FileMap, readOnly: set<string>, m: string, table: string): FileMap {
    if Writable(fs, readOnly, RoutesPath) then fs[RoutesPath := RebuildRoutes(fs[RoutesPath], m, table)]
    else fs
  }

  // ---------------------------------------------------------------------
  // Properties of the rebuild.

  /** Filtering distributes over concatenated line lists. */
  lemma {:induction false} KeptAppend(a: seq<string>, ka: seq<LineKind>, b: seq<string>, kb: seq<LineKind>, kind: LineKind)
    requires |ka| == |a| && |kb| == |b|
    ensures Kept(a + b, ka + kb, kind) == Kept(a, ka, kind) + Kept(b, kb, kind)
    decreases |b|
  {
    if b == [] {
      assert a + b == a && ka + kb == ka;
    } else {
      var n := |b| - 1;
      assert (a + b)[..|a| + n] == a + b[..n];
      assert (ka + kb)[..|a| + n] == ka + kb[..n];
      assert (a + b)[|a| + n] == b[n] && (ka + kb)[|a| + n] == kb[n];
      KeptAppend(a, ka, b[..n], kb[..n], kind);
    }
  }

  /** Lines that all have one kind are kept whole by that kind and not at
      all by the others. */
  lemma {:induction false} KeptUniform(lines: seq<string>, kinds: seq<LineKind>, kind: LineKind, other: LineKind)
    requires |kinds| == |lines|
    requires forall k :: 0 <= k < |kinds| ==> kinds[k] == kind
    ensures Kept(lines, kinds, kind) == lines
    ensures other != kind ==> Kept(lines, kinds, other) == []
    decreases |lines|
  {
    if lines != [] {
      var n := |lines| - 1;
      KeptUniform(lines[..n], kinds[..n], kind, other);
      KeptLast(lines, kinds, kind);
      KeptLast(lines, kinds, other);
      LastSplit(lines);
    }
  }

  /** One unfolding of Kept: the last line is kept exactly when its kind is
      the one asked for. */
  lemma KeptLast(lines: seq<string>, kinds: seq<LineKind>, kind: LineKind)
    requires |kinds| == |lines| && lines != []
    ensures var n := |lines| - 1;
      Kept(lines, kinds, kind) == Kept(lines[..n], kinds[..n], kind) + (if kinds[n] == kind then [lines[n]] else [])
  {
  }

  lemma LastSplit(lines: seq<string>)
    requires lines != []
    ensures lines[..|lines| - 1] + [lines[|lines| - 1]] == lines
  {
  }

  /** Every line kept for a kind has that kind. */
  lemma {:induction false} KeptHaveKind(lines: seq<string>, m: string, kind: LineKind)
    ensures forall k :: 0 <= k < |Kept(lines, Kinds(lines, m), kind)| ==>
      Classify(Kept(lines, Kinds(lines, m), kind)[k], m) == kind
    decreases |lines|
  {
    if lines != [] {
      var n := |lines| - 1;
      assert Kinds(lines, m)[..n] == Kinds(lines[..n], m);
      KeptHaveKind(lines[..n], m, kind);
    }
  }

  /** One more line through the classification loop: it is kept for its
      own kind only. */
  lemma KeptStep(lines: seq<string>, i: nat, m: string, kind: LineKind)
    requires i < |lines|
    ensures Kept(lines[..i + 1], Kinds(lines[..i + 1], m), kind)
         == Kept(lines[..i], Kinds(lines[..i], m), kind) + (if Classify(lines[i], m) == kind then [lines[i]] else [])
  {
    var l := lines[..i + 1];
    assert l[..i] == lines[..i] && l[i] == lines[i];
    assert Kinds(l, m)[..i] == Kinds(lines[..i], m);
  }

  /** The rebuilt file as the sequence of appends that builds it. */
  lemma RebuiltLinesShape(lines: seq<string>, m: string, table: string,
                          uses: seq<string>, routes: seq<string>, hasControllerUse: bool)
    requires uses == OtherUses(lines, m) && routes == RouteDecls(lines, m)
    requires hasControllerUse <==> HasControllerUse(lines, m)
    ensures RebuiltLines(lines, m, table)
         == ["<?php", ""] + [RouteImport + ";"] + (if hasControllerUse then [] else [ControllerImport(m) + ";"])
            + uses + [""] + routes + (if RouteLine(m, table) in Trims(routes) then [] else [RouteLine(m, table)])
  {
    var ctl := ControllerPart(lines, m);
    var tail := if RouteLine(m, table) in Trims(routes) then [] else [RouteLine(m, table)];
    assert Header(lines, m) == ["<?php", "", RouteImport + ";"] + ctl + uses + [""];
    assert RouteBlock(lines, m, table) == routes + tail;
    HeaderAssoc("<?php", "", RouteImport + ";", ctl, uses, routes, tail);
  }

  /** The pieces of the rebuilt file regrouped: the opening lines as the
      method appends them, and, without a controller line, as the opening
      tag, the use lines, a blank line and the route block. */
  lemma HeaderAssoc(a0: string, a1: string, a2: string, c: seq<string>, u: seq<string>,
                    r: seq<string>, t: seq<string>)
    ensures [a0, a1] + [a2] + c + u + [""] + r + t == ([a0, a1, a2] + c + u + [""]) + (r + t)
    ensures c == [] ==> ([a0, a1, a2] + c + u + [""]) + r == [a0, a1] + ([a2] + u) + [""] + r + []
  {
    assert [a0, a1] + [a2] == [a0, a1, a2];
  }

  /** Classification of concatenated line lists. */
  lemma KindsAppend(a: seq<string>, b: seq<string>, m: string)
    ensures Kinds(a + b, m) == Kinds(a, m) + Kinds(b, m)
  {
    var l := Kinds(a + b, m);
    var r := Kinds(a, m) + Kinds(b, m);
    forall k | 0 <= k < |l| ensures l[k] == r[k] {
      if k < |a| {
        assert (a + b)[k] == a[k];
      } else {
        assert (a + b)[k] == b[k - |a|];
      }
    }
  }

  /** trim is applied line by line. */
  lemma TrimsAppend(a: seq<string>, b: seq<string>)
    ensures Trims(a + b) == Trims(a) + Trims(b)
  {
    var l, r := Trims(a + b), Trims(a) + Trims(b);
    forall k | 0 <= k < |a + b| ensures l[k] == r[k] {
      assert l[k] == Trim((a + b)[k]);
      if k < |a| {
        assert (a + b)[k] == a[k] && r[k] == Trims(a)[k];
        assert Trims(a)[k] == Trim(a[k]);
      } else {
        assert (a + b)[k] == b[k - |a|] && r[k] == Trims(b)[k - |a|];
        assert Trims(b)[k - |a|] == Trim(b[k - |a|]);
      }
    }
  }

  /** How many entries equal x. */
  function CountOf(xs: seq<string>, x: string): (r: nat)
    ensures r == 0 <==> x !in xs
    decreases |xs|
  {
    if xs == [] then 0
    else
      assert xs == [xs[0]] + xs[1..];
      (if xs[0] == x then 1 else 0) + CountOf(xs[1..], x)
  }

  lemma {:induction false} CountAppend(a: seq<string>, b: seq<string>, x: string)
    ensures CountOf(a + b, x) == CountOf(a, x) + CountOf(b, x)
    decreases |a|
  {
    if a == [] {
      assert a + b == b;
    } else {
      assert (a + b)[0] == a[0];
      assert (a + b)[1..] == a[1..] + b;
      CountAppend(a[1..], b, x);
    }
  }

  /** Facts about the fixed import line. */
  lemma RouteImportShape()
    ensures RouteImport[0] == 'u' && RouteImport[|RouteImport| - 1] == ';'
    ensures IsUseStatement(RouteImport)
    ensures Trim(RouteImport + ";") == RouteImport + ";"
  {
    var a := "use Illuminate\\Support";
    assert RouteImport[..3] == a[..3] == "use";
    assert RouteImport[3] == ' ';
    assert RouteImport[|RouteImport| - 1] in RouteImport[4..];
    var r := RouteImport + ";";
    assert r[0] == 'u' && r[|r| - 1] == ';';
    TrimStable(r);
  }

  /** A line that cannot be taken for the route line: after trimming it
      is empty or does not start with 'R'. */
  predicate NotRouteLead(x: string) {
    Trim(x) == [] || Trim(x)[0] != 'R'
  }

  /** The kept use lines start with "use" after trimming. */
  lemma UsesNotRouteLead(lines: seq<string>, m: string)
    ensures forall k :: 0 <= k < |OtherUses(lines, m)| ==> NotRouteLead(OtherUses(lines, m)[k])
  {
    var uses := OtherUses(lines, m);
    KeptHaveKind(lines, m, OtherUse);
    forall k | 0 <= k < |uses| ensures NotRouteLead(uses[k]) {
      assert Classify(uses[k], m) == OtherUse;
      var t := Trim(uses[k]);
      assert t[..3] == "use";
      assert t[0] == t[..3][0];
    }
  }

  predicate NoRouteLeads(xs: seq<string>) {
    forall k :: 0 <= k < |xs| ==> NotRouteLead(xs[k])
  }

  lemma NoRouteLeadsAppend(a: seq<string>, b: seq<string>)
    requires NoRouteLeads(a) && NoRouteLeads(b)
    ensures NoRouteLeads(a + b)
  {
    forall k | 0 <= k < |a + b| ensures NotRouteLead((a + b)[k]) {
      if k < |a| {
        assert (a + b)[k] == a[k];
      } else {
        assert (a + b)[k] == b[k - |a|];
      }
    }
  }

  /** A line bounded by non-trim characters and not starting with 'R'. */
  lemma BoundedNoRouteLead(x: string)
    requires x != [] && !IsTrimChar(x[0]) && !IsTrimChar(x[|x| - 1]) && x[0] != 'R'
    ensures NoRouteLeads([x])
  {
    TrimStable(x);
    assert [x][0] == x;
  }

  /** The opening tag of the rebuilt file. */
  lemma TagNoRouteLead()
    ensures NoRouteLeads(["<?php"])
  {
    var t := "<?php";
    assert t[0] == '<' && t[4] == 'p';
    BoundedNoRouteLead(t);
  }

  /** The Route facade import line of the rebuilt file. */
  lemma RouteImportNoRouteLead()
    ensures NoRouteLeads([RouteImport + ";"])
  {
    var r := RouteImport + ";";
    assert r[0] == 'u' && r[|r| - 1] == ';';
    BoundedNoRouteLead(r);
  }

  /** The opening tag, the blank line and the Route facade import. */
  lemma FixedLinesNoRouteLead()
    ensures NoRouteLeads(["<?php", "", RouteImport + ";"])
  {
    TagNoRouteLead();
    RouteImportNoRouteLead();
    assert NoRouteLeads([""]);
    NoRouteLeadsAppend(["<?php"], [""]);
    NoRouteLeadsAppend(["<?php", ""], [RouteImport + ";"]);
    assert ["<?php", ""] + [RouteImport + ";"] == ["<?php", "", RouteImport + ";"];
  }

  lemma ControllerPartNoRouteLead(lines: seq<string>, m: string)
    ensures NoRouteLeads(ControllerPart(lines, m))
  {
    if !HasControllerUse(lines, m) {
      var c := ControllerImport(m) + ";";
      assert c[0] == 'u' && c[|c| - 1] == ';';
      BoundedNoRouteLead(c);
    }
  }

  /** Every header line is one that cannot be taken for the route line. */
  lemma HeaderNotRouteLead(lines: seq<string>, m: string)
    ensures NoRouteLeads(Header(lines, m))
  {
    var fixed := ["<?php", "", RouteImport + ";"];
    var ctrl := ControllerPart(lines, m);
    var uses := OtherUses(lines, m);
    FixedLinesNoRouteLead();
    ControllerPartNoRouteLead(lines, m);
    UsesNotRouteLead(lines, m);
    assert NoRouteLeads([""]);
    NoRouteLeadsAppend(fixed, ctrl);
    NoRouteLeadsAppend(fixed + ctrl, uses);
    NoRouteLeadsAppend(fixed + ctrl + uses, [""]);
  }

  /** Lines that cannot be taken for the route line do not count as it. */
  lemma NoRouteAmong(h: seq<string>, r: string)
    requires r != [] && r[0] == 'R'
    requires NoRouteLeads(h)
    ensures CountOf(Trims(h), r) == 0
  {
    forall k | 0 <= k < |h| ensures Trims(h)[k] != r {
      assert Trims(h)[k] == Trim(h[k]);
    }
  }

  /** The route line starts with 'R' and is its own trim. */
  lemma RouteLineFacts(m: string, table: string)
    ensures RouteLine(m, table) != [] && RouteLine(m, table)[0] == 'R'
    ensures Trim(RouteLine(m, table)) == RouteLine(m, table)
  {
    var rl := RouteLine(m, table);
    assert rl[0] == 'R' && rl[|rl| - 1] == ';';
    TrimStable(rl);
  }

  /** Appending a line unless its trim is already present, after lines
      that cannot be taken for it, leaves it present exactly as often as
      before, or once. */
  lemma AddUnlessPresent(head: seq<string>, routes: seq<string>, rl: string)
    requires rl != [] && rl[0] == 'R' && Trim(rl) == rl && NoRouteLeads(head)
    ensures var n := CountOf(Trims(routes), rl);
      CountOf(Trims(head + (routes + (if rl in Trims(routes) then [] else [rl]))), rl)
        == if n == 0 then 1 else n
  {
    var tail := if rl in Trims(routes) then [] else [rl];
    NoRouteAmong(head, rl);
    TrimsAppend(head, routes + tail);
    CountAppend(Trims(head), Trims(routes + tail), rl);
    TailCount(routes, rl);
  }

  /** The count of the line after the route lines and the appended tail. */
  lemma TailCount(routes: seq<string>, rl: string)
    requires Trim(rl) == rl
    ensures var n := CountOf(Trims(routes), rl);
      CountOf(Trims(routes + (if rl in Trims(routes) then [] else [rl])), rl) == if n == 0 then 1 else n
  {
    var tail := if rl in Trims(routes) then [] else [rl];
    TrimsAppend(routes, tail);
    CountAppend(Trims(routes), Trims(tail), rl);
    if tail != [] {
      assert Trims(tail) == [rl];
      assert CountOf([rl], rl) == 1 + CountOf([rl][1..], rl);
    }
  }

  /** The route line is never duplicated: afterwards it occurs (after
      trimming) as often as before, and once if it was missing. */
  lemma RouteNeverDuplicated(lines: seq<string>, m: string, table: string)
    ensures var n := CountOf(Trims(RouteDecls(lines, m)), RouteLine(m, table));
      CountOf(Trims(RebuiltLines(lines, m, table)), RouteLine(m, table)) == if n == 0 then 1 else n
  {
    var rl := RouteLine(m, table);
    var routes := RouteDecls(lines, m);
    var head := Header(lines, m);
    var tail := if rl in Trims(routes) then [] else [rl];
    assert RebuiltLines(lines, m, table) == head + (routes + tail);
    HeaderNotRouteLead(lines, m);
    RouteLineFacts(m, table);
    AddUnlessPresent(head, routes, rl);
  }
}
