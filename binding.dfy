/** registerBinding: the contextual binding written into the repositories
    service provider, by creating the provider from its template or by a
    preg_replace splice into its register() body, and the provider entry
    added to bootstrap/providers.php. */
module Binding {
  import opened PhpText
  import opened Planner

  datatype Option<T> = None | Some(value: T)

  /** $serviceClass, $repositoryClass and the interface the binding names. */
  function ServiceClass(m: string): string {
    "App\\Services\\" + m + "Service"
  }
  function RepositoryClass(m: string): string {
    "App\\Repositories\\" + m + "Repository"
  }
  const InterfaceClass := "App\\Contracts\\RepositoryInterface"

  /** $bindingCode for a model name (the heredoc has no trailing newline). */
  function BindingCode(m: string): string {
    "        $this->app->when(\\" + ServiceClass(m) + "::class)\n"
    + "            ->needs(\\" + InterfaceClass + "::class)\n"
    + "            ->give(\\" + RepositoryClass(m) + "::class);"
  }

  /** The provider written when none exists yet. */
  function ProviderTemplate(b: string): string {
    ProviderHead + b + ProviderTail
  }

  /** The provider's text up to the register() body and after it. */
  const ProviderHead := "<?php\n\nnamespace App\\Providers;\n\nuse Illuminate\\Support\\ServiceProvider;\n\n"
    + "class RepositoriesServiceProvider extends ServiceProvider\n{\n"
    + "    public function register()\n    {\n"
  const ProviderTail := "\n    }\n\n    public function boot()\n    {\n        //\n    }\n}"

  /** The template contains the binding it was built from. */
  lemma TemplateHoldsBinding(b: string)
    ensures Contains(ProviderTemplate(b), b)
  {
    HoldsInside(ProviderHead, b, ProviderTail);
  }

  lemma HoldsInside(pre: string, b: string, post: string)
    ensures Contains(pre + b + post, b)
  {
    assert (pre + b + post)[|pre|..|pre| + |b|] == b;
    assert OccursAt(pre + b + post, b, |pre|);
  }

  // ---------------------------------------------------------------------
  // The pattern /(public\s+function\s+register\s*\(\)\s*\{)([^\}]*?)(\})/s

  /** Where the head `public\s+function\s+register\s*\(\)\s*\{` matched at i
      ends. Each \s run is followed by a literal that starts with a
      non-space, so the greedy runs never give characters back. */
  function HeadEnd(s: string, i: nat): (r: Option<nat>)
    requires i <= |s|
    ensures r.Some? ==> i < r.value <= |s| && s[r.value - 1] == '{' && OccursAt(s, "public", i)
  {
    if !OccursAt(s, "public", i) then None
    else
      var a := SkipSpaces(s, i + 6);
      if a == i + 6 || !OccursAt(s, "function", a) then None
      else
        var b := SkipSpaces(s, a + 8);
        if b == a + 8 || !OccursAt(s, "register", b) then None
        else
          var c := SkipSpaces(s, b + 8);
          if !OccursAt(s, "()", c) then None
          else
            var d := SkipSpaces(s, c + 2);
            if !OccursAt(s, "{", d) then None
            else
              assert s[d..d + 1][0] == s[d];
              Some(d + 1)
  }

  /** The lazy `[^\}]*?` followed by `\}`: the first '}' from h on. */
  function FirstClose(s: string, h: nat): (r: Option<nat>)
    requires h <= |s|
    ensures r.Some? ==> h <= r.value < |s| && s[r.value] == '}' && '}' !in s[h..r.value]
    ensures r.None? ==> '}' !in s[h..]
    decreases |s| - h
  {
    if h == |s| then None
    else if s[h] == '}' then Some(h)
    else
      var r := FirstClose(s, h + 1);
      if r.Some? then
        assert s[h..r.value] == [s[h]] + s[h + 1..r.value];
        r
      else
        assert s[h..] == [s[h]] + s[h + 1..];
        r
  }

  /** The pattern matches at i. */
  predicate MatchAt(s: string, i: nat)
    requires i <= |s|
  {
    var h := HeadEnd(s, i);
    h.Some? && FirstClose(s, h.value).Some?
  }

  /** A match: its start, the end of group 1 and the index of group 3. */
  datatype RegisterMatch = RegisterMatch(start: nat, headEnd: nat, close: nat)

  /** preg_replace with limit 1 uses the leftmost match at or after i. */
  function FindRegister(s: string, i: nat): (r: Option<RegisterMatch>)
    requires i <= |s|
    ensures r.Some? ==>
      var m := r.value;
      && i <= m.start < m.headEnd <= m.close < |s| && MatchAt(s, m.start)
      && HeadEnd(s, m.start) == Some(m.headEnd)
      && FirstClose(s, m.headEnd) == Some(m.close)
      && forall k :: i <= k < m.start ==> !MatchAt(s, k)
    ensures r.None? ==> forall k :: i <= k <= |s| ==> !MatchAt(s, k)
    decreases |s| - i
  {
    if MatchAt(s, i) then
      var h := HeadEnd(s, i).value;
      Some(RegisterMatch(i, h, FirstClose(s, h).value))
    else if i == |s| then None
    else FindRegister(s, i + 1)
  }

  // ---------------------------------------------------------------------
  // The replacement string of preg_replace and its expansion.

  predicate IsSpecial(c: char) {
    c == '\\' || c == '$'
  }

  /** A group reference at the start of a replacement string: \d, \dd,
      $d, $dd, ${d} or ${dd}; the group number and the length taken. */
  function BackrefAt(rep: string): (r: Option<(nat, nat)>)
    ensures r.Some? ==> 2 <= r.value.1 <= |rep| && IsSpecial(rep[0])
  {
    if |rep| < 2 || !IsSpecial(rep[0]) then None
    else
      var p := if rep[0] == '$' && rep[1] == '{' then 2 else 1;
      if p >= |rep| || !IsDigit(rep[p]) then None
      else
        var two := p + 1 < |rep| && IsDigit(rep[p + 1]);
        var d := rep[p] as int - '0' as int;
        var n := if two then d * 10 + (rep[p + 1] as int - '0' as int) else d;
        var q := if two then p + 2 else p + 1;
        if p == 1 then Some((n, q))
        else if q < |rep| && rep[q] == '}' then Some((n, q + 1))
        else None
  }

  /** The expansion preg_replace makes of a replacement string: group
      references become the group's text (empty for a group that does not
      exist), a backslash before a backslash or a dollar sign is dropped,
      every other character stays. */
  function Expand(rep: string, groups: seq<string>): string
    decreases |rep|
  {
    if rep == [] then ""
    else
      match BackrefAt(rep)
      case Some((n, len)) => (if n < |groups| then groups[n] else "") + Expand(rep[len..], groups)
      case None =>
        if rep[0] == '\\' && |rep| >= 2 && IsSpecial(rep[1]) then [rep[1]] + Expand(rep[2..], groups)
        else [rep[0]] + Expand(rep[1..], groups)
  }

  /** Text that the expansion leaves as it is: every backslash or dollar
      sign is followed by a character that starts no reference and no
      escape. */
  predicate Inert(s: string) {
    forall k :: 0 <= k < |s| && IsSpecial(s[k]) ==>
      && k + 1 < |s| && !IsDigit(s[k + 1]) && !IsSpecial(s[k + 1])
      && (s[k] == '$' ==> s[k + 1] != '{')
  }

  /** Inert text passes through the expansion unchanged. */
  lemma {:induction false} ExpandInert(s: string, t: string, groups: seq<string>)
    requires Inert(s)
    ensures Expand(s + t, groups) == s + Expand(t, groups)
    decreases |s|
  {
    if s == [] {
      assert s + t == t;
    } else {
      var u := s + t;
      assert u[0] == s[0];
      if IsSpecial(s[0]) {
        assert u[1] == s[1];
      }
      assert BackrefAt(u).None?;
      assert u[1..] == s[1..] + t;
      ExpandInert(s[1..], t, groups);
    }
  }

  /** One step of the expansion at a group reference. */
  lemma ExpandRef(rep: string, groups: seq<string>, n: nat, len: nat)
    requires BackrefAt(rep) == Some((n, len)) && n < |groups|
    ensures Expand(rep, groups) == groups[n] + Expand(rep[len..], groups)
  {
  }

  /** One step of the expansion at a character that is copied. */
  lemma ExpandChar(rep: string, groups: seq<string>)
    requires rep != [] && !IsSpecial(rep[0])
    ensures Expand(rep, groups) == [rep[0]] + Expand(rep[1..], groups)
  {
  }

  /** A dollar sign and one digit, then a character that is not a digit. */
  lemma DollarDigit(rep: string, d: char)
    requires |rep| >= 2 && rep[0] == '$' && rep[1] == d && IsDigit(d)
    requires |rep| == 2 || !IsDigit(rep[2])
    ensures BackrefAt(rep) == Some(((d as int - '0' as int) as nat, 2))
  {
  }

  /** "$1$2\n$bindingCode\n$3" */
  function SpliceTemplate(b: string): string {
    "$1$2\n" + b + "\n$3"
  }

  /** The end of the template, "\n$3": a newline and group 3. */
  lemma ExpandClosing(groups: seq<string>)
    requires |groups| == 4
    ensures Expand("\n$3", groups) == "\n" + groups[3]
  {
    var last := "$3";
    ExpandChar("\n" + last, groups);
    assert ("\n" + last)[1..] == last;
    DollarDigit(last, '3');
    ExpandRef(last, groups, 3, 2);
    assert last[2..] == [];
  }

  /** The binding and what follows it: a newline, the binding, a newline
      and group 3. */
  lemma ExpandBindingLine(b: string, groups: seq<string>)
    requires Inert(b) && |groups| == 4
    ensures Expand("\n" + b + "\n$3", groups) == "\n" + b + "\n" + groups[3]
  {
    ExpandClosing(groups);
    ExpandAfterInert('\n', b, "\n$3", groups, "\n" + groups[3]);
  }

  /** A plain character, inert text, and a rest whose expansion is known. */
  lemma ExpandAfterInert(c: char, b: string, rest: string, groups: seq<string>, e: string)
    requires !IsSpecial(c) && Inert(b) && Expand(rest, groups) == e
    ensures Expand([c] + b + rest, groups) == [c] + b + e
  {
    var s := [c] + b + rest;
    ExpandChar(s, groups);
    assert s[1..] == b + rest;
    ExpandInert(b, rest, groups);
  }

  /** With an inert binding, the replacement is group 1, group 2, the
      binding on its own line, and group 3. */
  lemma ExpandSpliceTemplate(b: string, groups: seq<string>)
    requires Inert(b) && |groups| == 4
    ensures Expand(SpliceTemplate(b), groups) == groups[1] + groups[2] + ("\n" + b + "\n" + groups[3])
  {
    var tail := "\n" + b + "\n$3";
    TemplateSplit(b);
    ExpandLeadRef('1', "$2" + tail, groups);
    ExpandLeadRef('2', tail, groups);
    ExpandBindingLine(b, groups);
  }

  lemma TemplateSplit(b: string)
    ensures SpliceTemplate(b) == ['$', '1'] + (['$', '2'] + ("\n" + b + "\n$3"))
    ensures (['$', '2'] + ("\n" + b + "\n$3")) == "$2" + ("\n" + b + "\n$3")
    ensures ("\n" + b + "\n$3")[0] == '\n' && ("$2" + ("\n" + b + "\n$3"))[0] == '$'
  {
  }

  /** A dollar sign and a digit at the front, not followed by a digit. */
  lemma ExpandLeadRef(d: char, rest: string, groups: seq<string>)
    requires IsDigit(d) && (d as int - '0' as int) < |groups| && (rest == [] || !IsDigit(rest[0]))
    ensures Expand(['$', d] + rest, groups) == groups[d as int - '0' as int] + Expand(rest, groups)
  {
    var rep := ['$', d] + rest;
    DollarDigit(rep, d);
    ExpandRef(rep, groups, (d as int - '0' as int) as nat, 2);
    assert rep[2..] == rest;
  }

  /** Appending inert text to inert text keeps it inert. */
  lemma InertAppend(a: string, b: string)
    requires Inert(a) && Inert(b)
    ensures Inert(a + b)
  {
    var s := a + b;
    forall k | 0 <= k < |s| && IsSpecial(s[k])
      ensures k + 1 < |s| && !IsDigit(s[k + 1]) && !IsSpecial(s[k + 1])
      ensures s[k] == '$' ==> s[k + 1] != '{'
    {
      if k < |a| {
        assert s[k] == a[k] && s[k + 1] == a[k + 1];
      } else {
        assert s[k] == b[k - |a|] && s[k + 1] == b[k - |a| + 1];
      }
    }
  }

  /** Text without a backslash or a dollar sign. */
  predicate NoSpecial(s: string) {
    forall k :: 0 <= k < |s| ==> !IsSpecial(s[k])
  }

  lemma NoSpecialInert(s: string)
    requires NoSpecial(s)
    ensures Inert(s)
  {
  }

  /** Inert text, a backslash or dollar sign, and inert text that starts
      with a character that neither starts a reference nor is escaped. */
  lemma InertJoin(a: string, c: char, b: string)
    requires Inert(a) && IsSpecial(c) && Inert(b) && b != []
    requires !IsDigit(b[0]) && !IsSpecial(b[0]) && (c == '$' ==> b[0] != '{')
    ensures Inert(a + [c] + b)
  {
    var s := a + [c] + b;
    forall k | 0 <= k < |s| && IsSpecial(s[k])
      ensures k + 1 < |s| && !IsDigit(s[k + 1]) && !IsSpecial(s[k + 1])
      ensures s[k] == '$' ==> s[k + 1] != '{'
    {
      if k < |a| {
        assert s[k] == a[k] && s[k + 1] == a[k + 1];
      } else if k == |a| {
        assert s[k + 1] == b[0];
      } else {
        assert s[k] == b[k - |a| - 1] && s[k + 1] == b[k - |a|];
      }
    }
  }

  /** Names without a backslash or a dollar sign that do not start with a
      digit. */
  predicate PlainName(m: string) {
    '\\' !in m && '$' !in m && (m == [] || !IsDigit(m[0]))
  }

  /** A class path `a\b\<m><t>` around a plain name. */
  lemma ClassPathInert(a: string, b: string, m: string, t: string)
    requires NoSpecial(a) && NoSpecial(b) && NoSpecial(t) && PlainName(m)
    requires b != [] && !IsDigit(b[0]) && t != [] && !IsDigit(t[0])
    ensures Inert(a + "\\" + b + "\\" + (m + t))
  {
    NoSpecialInert(a);
    NoSpecialInert(b);
    InertJoin(a, '\\', b);
    var mt := m + t;
    forall k | 0 <= k < |mt| ensures !IsSpecial(mt[k]) {
      if k < |m| {
        assert mt[k] == m[k] && m[k] in m;
      } else {
        assert mt[k] == t[k - |m|];
      }
    }
    assert mt[0] == if m == [] then t[0] else m[0];
    NoSpecialInert(mt);
    InertJoin(a + "\\" + b, '\\', mt);
  }

  lemma AppNames()
    ensures NoSpecial("App") && NoSpecial("Services") && NoSpecial("Service")
    ensures NoSpecial("Repositories") && NoSpecial("Repository")
  {
  }

  /** The service and repository class names of a plain model name. */
  lemma ServiceClassInert(m: string)
    requires PlainName(m)
    ensures Inert(ServiceClass(m)) && ServiceClass(m)[0] == 'A'
  {
    AppNames();
    ClassPathInert("App", "Services", m, "Service");
    assert ServiceClass(m) == "App" + "\\" + "Services" + "\\" + (m + "Service");
  }

  lemma RepositoryClassInert(m: string)
    requires PlainName(m)
    ensures Inert(RepositoryClass(m)) && RepositoryClass(m)[0] == 'A'
  {
    AppNames();
    ClassPathInert("App", "Repositories", m, "Repository");
    assert RepositoryClass(m) == "App" + "\\" + "Repositories" + "\\" + (m + "Repository");
  }

  lemma InterfaceInert()
    ensures Inert(InterfaceClass) && InterfaceClass[0] == 'A'
  {
    InterfaceNames();
    ClassPathInert("App", "Contracts", "", "RepositoryInterface");
    InterfaceSplit();
  }

  lemma InterfaceNames()
    ensures NoSpecial("App") && NoSpecial("Contracts") && NoSpecial("RepositoryInterface")
  {
  }

  lemma InterfaceSplit()
    ensures InterfaceClass == "App" + "\\" + "Contracts" + "\\" + ("" + "RepositoryInterface")
  {
  }

  /** The fixed text of the three binding lines before each backslash. */
  lemma LeadsInert()
    ensures Inert("        $this->app->when(")
    ensures NoSpecial("            ->needs(") && NoSpecial("            ->give(")
    ensures NoSpecial("::class)\n") && NoSpecial("::class);")
  {
    WhenParts();
    NoSpecialInert("        ");
    NoSpecialInert("this->app->when(");
    InertJoin("        ", '$', "this->app->when(");
    OtherLeads();
  }

  lemma WhenParts()
    ensures NoSpecial("        ") && NoSpecial("this->app->when(")
    ensures "        $this->app->when(" == "        " + ['$'] + "this->app->when("
  {
  }

  lemma OtherLeads()
    ensures NoSpecial("            ->needs(") && NoSpecial("            ->give(")
    ensures NoSpecial("::class)\n") && NoSpecial("::class);")
  {
  }

  /** The binding code taken apart at its three backslashes. */
  lemma BindingCodeParts(m: string)
    ensures BindingCode(m)
         == "        $this->app->when(" + "\\" + (ServiceClass(m) + "::class)\n")
          + "            ->needs(" + "\\" + (InterfaceClass + "::class)\n")
          + "            ->give(" + "\\" + (RepositoryClass(m) + "::class);")
  {
    assert "        $this->app->when(\\" == "        $this->app->when(" + "\\";
    assert "            ->needs(\\" == "            ->needs(" + "\\";
    assert "            ->give(\\" == "            ->give(" + "\\";
  }

  /** Inert text, fixed text without specials, a backslash and inert text
      that starts with a letter. */
  lemma InertStep(pre: string, lead: string, rest: string)
    requires Inert(pre) && NoSpecial(lead) && Inert(rest) && rest != [] && rest[0] == 'A'
    ensures Inert(pre + lead + "\\" + rest)
  {
    NoSpecialInert(lead);
    InertAppend(pre, lead);
    InertJoin(pre + lead, '\\', rest);
  }

  /** For a plain model name the binding code reaches the provider
      literally, since its backslashes only precede letters. */
  lemma BindingInert(m: string)
    requires PlainName(m)
    ensures Inert(BindingCode(m))
  {
    var sc, rc := ServiceClass(m), RepositoryClass(m);
    var t1, t3 := "::class)\n", "::class);";
    ServiceClassInert(m);
    RepositoryClassInert(m);
    InterfaceInert();
    LeadsInert();
    NoSpecialInert(t1);
    NoSpecialInert(t3);
    InertAppend(sc, t1);
    InertAppend(InterfaceClass, t1);
    InertAppend(rc, t3);
    assert (sc + t1)[0] == 'A' && (InterfaceClass + t1)[0] == 'A' && (rc + t3)[0] == 'A';
    var line1 := "        $this->app->when(" + "\\" + (sc + t1);
    InertJoin("        $this->app->when(", '\\', sc + t1);
    InertStep(line1, "            ->needs(", InterfaceClass + t1);
    var line2 := line1 + "            ->needs(" + "\\" + (InterfaceClass + t1);
    InertStep(line2, "            ->give(", rc + t3);
    BindingCodeParts(m);
  }

  // ---------------------------------------------------------------------
  // The provider update.

  /** The three groups of a match, behind the whole match as group 0. */
  function Groups(s: string, m: RegisterMatch): seq<string>
    requires m.start <= m.headEnd <= m.close < |s|
  {
    [s[m.start..m.close + 1], s[m.start..m.headEnd], s[m.headEnd..m.close], "}"]
  }

  /** The match replaced by the expanded template. */
  function SpliceAt(s: string, m: RegisterMatch, b: string): string
    requires m.start <= m.headEnd <= m.close < |s|
  {
    s[..m.start] + Expand(SpliceTemplate(b), Groups(s, m)) + s[m.close + 1..]
  }

  /** The preg_replace call: the binding is spliced in before the first
      '}' after the leftmost register() head; no match, no change. */
  function SpliceBinding(s: string, b: string): string {
    var r := FindRegister(s, 0);
    if r.None? then s else SpliceAt(s, r.value, b)
  }

  /** The else branch of registerBinding: an existing provider already
      holding the binding text is left as it is. */
  function InjectBinding(s: string, b: string): string {
    if Contains(s, b) then s else SpliceBinding(s, b)
  }

  /** The splice puts the binding on its own line right before the '}'
      that closes the leftmost register() body, and keeps every other
      character. */
  lemma SpliceBeforeBrace(s: string, b: string)
    requires Inert(b) && FindRegister(s, 0).Some?
    ensures var c := FindRegister(s, 0).value.close;
      SpliceBinding(s, b) == s[..c] + "\n" + b + "\n" + s[c..]
  {
    var m := FindRegister(s, 0).value;
    assert s[m.close] == '}';
    SpliceShape(s, m, b);
  }

  /** The splice at one match whose group 3 is the '}' at m.close. */
  lemma SpliceShape(s: string, m: RegisterMatch, b: string)
    requires m.start <= m.headEnd <= m.close < |s| && s[m.close] == '}' && Inert(b)
    ensures SpliceAt(s, m, b) == s[..m.close] + "\n" + b + "\n" + s[m.close..]
  {
    var groups := Groups(s, m);
    ExpandSpliceTemplate(b, groups);
    SliceThree(s, m.start, m.headEnd, m.close);
    assert s[m.close..] == "}" + s[m.close + 1..];
    SpliceRegroup(s[..m.start], groups[1] + groups[2], "\n" + b + "\n", "}", s[m.close + 1..]);
    LineAround(s[..m.close], b, s[m.close..]);
  }

  lemma LineAround(x: string, b: string, y: string)
    ensures x + ("\n" + b + "\n") + y == x + "\n" + b + "\n" + y
  {
  }

  lemma SliceThree(s: string, i: nat, j: nat, k: nat)
    requires i <= j <= k <= |s|
    ensures s[..i] + (s[i..j] + s[j..k]) == s[..k]
  {
    var r := s[..i] + (s[i..j] + s[j..k]);
    assert |r| == k;
    forall t | 0 <= t < k ensures r[t] == s[..k][t] {
      if t < i {
      } else if t < j {
        assert r[t] == s[i..j][t - i];
      } else {
        assert r[t] == s[j..k][t - j];
      }
    }
  }

  /** The spliced provider as the text before the binding line, the line,
      and the text after it. */
  lemma SpliceRegroup(x: string, g: string, l: string, z: string, y: string)
    ensures x + (g + (l + z)) + y == (x + g) + l + (z + y)
    ensures x + (g + l + z) + y == (x + g) + l + (z + y)
  {
  }

  /** Without a register() body that is closed by a '}', the provider is
      not changed. */
  lemma SpliceNoMatch(s: string, b: string)
    requires forall k :: 0 <= k <= |s| ==> !MatchAt(s, k)
    ensures SpliceBinding(s, b) == s
  {
  }

  /** A successful splice leaves the binding in the provider. */
  lemma SpliceHolds(s: string, b: string)
    requires Inert(b) && FindRegister(s, 0).Some?
    ensures Contains(SpliceBinding(s, b), b)
  {
    var c := FindRegister(s, 0).value.close;
    SpliceBeforeBrace(s, b);
    HoldsBetween(s[..c], b, s[c..]);
  }

  /** A line inserted between two texts is contained in the result. */
  lemma HoldsBetween(x: string, b: string, y: string)
    ensures Contains(x + "\n" + b + "\n" + y, b)
  {
    var r := x + "\n" + b + "\n" + y;
    assert r[|x| + 1..|x| + 1 + |b|] == b;
    assert OccursAt(r, b, |x| + 1);
  }

  /** After an update the provider holds the binding, unless the pattern
      had nothing to match. */
  lemma InjectHolds(s: string, b: string)
    requires Inert(b)
    ensures Contains(InjectBinding(s, b), b) <==> Contains(s, b) || FindRegister(s, 0).Some?
  {
    if !Contains(s, b) && FindRegister(s, 0).Some? {
      SpliceHolds(s, b);
    }
  }

  /** Running the provider update twice is the same as running it once. */
  lemma InjectIdempotent(s: string, b: string)
    requires Inert(b)
    ensures InjectBinding(InjectBinding(s, b), b) == InjectBinding(s, b)
  {
    InjectHolds(s, b);
  }

  /** 'App\\Providers\\RepositoriesServiceProvider::class' */
  const ProviderEntry := "App\\Providers\\" + "RepositoriesServiceProvider::class"
  const ReturnOpen := "return ["

  /** The providers-list update: every `return [` gets the entry on the
      next line, unless the entry is already there. */
  function AddProviderEntry(content: string): string {
    if Contains(content, ProviderEntry) then content
    else ReplaceAll(content, ReturnOpen, ReturnOpen + "\n    " + ProviderEntry + ",")
  }

  /** The entry ends up in the list exactly when it was there or a
      `return [` was there to put it after. */
  lemma ProviderEntryAdded(content: string)
    ensures Contains(AddProviderEntry(content), ProviderEntry)
        <==> Contains(content, ProviderEntry) || Contains(content, ReturnOpen)
  {
    if !Contains(content, ProviderEntry) {
      var rep := ReturnOpen + "\n    " + ProviderEntry + ",";
      if Contains(content, ReturnOpen) {
        ReplaceAllIntroduces(content, ReturnOpen, rep);
        EntryInRep();
        ContainsWithin(ReplaceAll(content, ReturnOpen, rep), rep, ProviderEntry, |ReturnOpen| + 5);
      } else {
        ReplaceAllAbsent(content, ReturnOpen, rep);
      }
    }
  }

  /** The replacement text holds the entry after `return [` and the
      newline with its four spaces. */
  lemma EntryInRep()
    ensures var rep := ReturnOpen + "\n    " + ProviderEntry + ",";
      |ReturnOpen| + 5 + |ProviderEntry| <= |rep|
      && rep[|ReturnOpen| + 5..|ReturnOpen| + 5 + |ProviderEntry|] == ProviderEntry
  {
    var a := ReturnOpen + "\n    ";
    assert |a| == |ReturnOpen| + 5;
    assert (a + ProviderEntry + ",")[|a|..|a| + |ProviderEntry|] == ProviderEntry;
  }

  /** A text that contains rep contains every part of it. */
  lemma ContainsWithin(r: string, rep: string, x: string, off: nat)
    requires Contains(r, rep) && off + |x| <= |rep| && rep[off..off + |x|] == x
    ensures Contains(r, x)
  {
    var j :| 0 <= j <= |r| - |rep| && OccursAt(r, rep, j);
    forall k | 0 <= k < |x| ensures r[j + off + k] == x[k] {
      assert r[j..j + |rep|][off + k] == rep[off + k];
      assert rep[off..off + |x|][k] == x[k];
    }
    assert r[j + off..j + off + |x|] == x;
    assert OccursAt(r, x, j + off);
  }

  /** The providers-list update is idempotent. */
  lemma AddProviderEntryIdempotent(content: string)
    ensures AddProviderEntry(AddProviderEntry(content)) == AddProviderEntry(content)
  {
    ProviderEntryAdded(content);
    if !Contains(content, ProviderEntry) && !Contains(content, ReturnOpen) {
      ReplaceAllAbsent(content, ReturnOpen, ReturnOpen + "\n    " + ProviderEntry + ",");
    }
  }

  /** The insertion is global: a list with two `return [` gets the entry
      twice. */
  lemma AddProviderEntryEveryReturn(a: string, b: string)
    requires 'r' !in a && 'r' !in b && 'A' !in a && 'A' !in b
    ensures AddProviderEntry(ReturnOpen + a + ReturnOpen + b)
         == (ReturnOpen + "\n    " + ProviderEntry + ",") + a
          + (ReturnOpen + "\n    " + ProviderEntry + ",") + b
  {
    var rep := ReturnOpen + "\n    " + ProviderEntry + ",";
    var s := ReturnOpen + a + ReturnOpen + b;
    assert ProviderEntry[0] == 'A';
    assert forall k :: 0 <= k < |ReturnOpen| ==> ReturnOpen[k] != 'A';
    assert 'A' !in s;
    AbsentLead(s, ProviderEntry);
    assert ReturnOpen[0] == 'r';
    ReplaceAllTwo(ReturnOpen, a, b, rep);
  }

  /** The state after registerBinding: the provider is created or updated
      and always written; the providers list is patched only when it is
      writable. */
  function RegisterBindingSpec(fs: FileMap, readOnly: set<string>, m: string): FileMap {
    PatchProviders(fs, readOnly, BindingCode(m))
  }

  /** The two writes of registerBinding for a given binding text. */
  function PatchProviders(fs: FileMap, readOnly: set<string>, b: string): FileMap {
    var provider := if ProviderPath in fs then InjectBinding(fs[ProviderPath], b) else ProviderTemplate(b);
    var fs1 := fs[ProviderPath := provider];
    if Writable(fs1, readOnly, ProvidersListPath) then
      fs1[ProvidersListPath := AddProviderEntry(fs1[ProvidersListPath])]
    else fs1
  }

  /** The two files registerBinding writes are different files. */
  lemma ProviderFilesApart()
    ensures ProviderPath != ProvidersListPath
  {
    assert ProviderPath[4] == 'P' && ProvidersListPath[4] == 's';
  }

  /** What the two writes leave, for a binding text that reaches the
      provider literally. */
  lemma PatchRegistered(fs: FileMap, readOnly: set<string>, b: string)
    requires Inert(b)
    ensures var r := PatchProviders(fs, readOnly, b);
      && ProviderPath in r
      && (Contains(r[ProviderPath], b) <==>
            ProviderPath !in fs || Contains(fs[ProviderPath], b) || FindRegister(fs[ProviderPath], 0).Some?)
      && (Writable(fs, readOnly, ProvidersListPath) ==>
            (Contains(r[ProvidersListPath], ProviderEntry) <==>
               Contains(fs[ProvidersListPath], ProviderEntry) || Contains(fs[ProvidersListPath], ReturnOpen)))
      && (!Writable(fs, readOnly, ProvidersListPath) ==>
            (ProvidersListPath in r <==> ProvidersListPath in fs)
            && (ProvidersListPath in fs ==> r[ProvidersListPath] == fs[ProvidersListPath]))
  {
    ProviderFilesApart();
    if ProviderPath in fs {
      InjectHolds(fs[ProviderPath], b);
    } else {
      TemplateHoldsBinding(b);
    }
    if Writable(fs, readOnly, ProvidersListPath) {
      ProviderEntryAdded(fs[ProvidersListPath]);
    }
  }

  /** After registerBinding the provider exists and holds the binding
      unless an existing provider had no register() body to splice into;
      a writable providers list holds the entry unless it had neither the
      entry nor a `return [`; a list that is not writable is left alone. */
  lemma BindingRegistered(fs: FileMap, readOnly: set<string>, m: string)
    requires PlainName(m)
    ensures var r := RegisterBindingSpec(fs, readOnly, m);
      var b := BindingCode(m);
      && ProviderPath in r
      && (Contains(r[ProviderPath], b) <==>
            ProviderPath !in fs || Contains(fs[ProviderPath], b) || FindRegister(fs[ProviderPath], 0).Some?)
      && (Writable(fs, readOnly, ProvidersListPath) ==>
            (Contains(r[ProvidersListPath], ProviderEntry) <==>
               Contains(fs[ProvidersListPath], ProviderEntry) || Contains(fs[ProvidersListPath], ReturnOpen)))
      && (!Writable(fs, readOnly, ProvidersListPath) ==>
            (ProvidersListPath in r <==> ProvidersListPath in fs)
            && (ProvidersListPath in fs ==> r[ProvidersListPath] == fs[ProvidersListPath]))
  {
    BindingInert(m);
    PatchRegistered(fs, readOnly, BindingCode(m));
  }

  lemma PatchIdempotent(fs: FileMap, readOnly: set<string>, b: string)
    requires Inert(b)
    ensures PatchProviders(PatchProviders(fs, readOnly, b), readOnly, b) == PatchProviders(fs, readOnly, b)
  {
    ProviderFilesApart();
    if ProviderPath in fs {
      InjectIdempotent(fs[ProviderPath], b);
    } else {
      TemplateHoldsBinding(b);
    }
    if Writable(fs, readOnly, ProvidersListPath) {
      AddProviderEntryIdempotent(fs[ProvidersListPath]);
    }
  }

  /** registerBinding run twice leaves the files as running it once. */
  lemma RegisterBindingIdempotent(fs: FileMap, readOnly: set<string>, m: string)
    requires PlainName(m)
    ensures RegisterBindingSpec(RegisterBindingSpec(fs, readOnly, m), readOnly, m) == RegisterBindingSpec(fs, readOnly, m)
  {
    BindingInert(m);
    PatchIdempotent(fs, readOnly, BindingCode(m));
  }
}
