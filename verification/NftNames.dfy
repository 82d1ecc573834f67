/** Which configurations the rulebase compiler can be trusted with: when its output loads,
    exactly which names keep its meaning, and exactly which tags tell two vsys apart. */
module NftNames {
  import opened Words
  import opened Nft

  // ---- loading ---------------------------------------------------------------------------

  predicate SetDeclared(sets: seq<(string, seq<string>)>, name: string)
  {
    exists i :: 0 <= i < |sets| && sets[i].0 == name
  }

  predicate RefDeclared(sets: seq<(string, seq<string>)>, m: Match)
  {
    m.IifIn? || m.OifIn? ==> SetDeclared(sets, m.setName)
  }

  predicate LineLoads(rs: Ruleset, l: Line)
  {
    && (forall i :: 0 <= i < |l.matches| ==> RefDeclared(rs.sets, l.matches[i]))
    && (l.act.Jump? ==> exists i :: 0 <= i < |rs.chains| && rs.chains[i].0 == l.act.chain)
  }

  predicate LinesLoad(rs: Ruleset, ls: seq<Line>) { forall n :: 0 <= n < |ls| ==> LineLoads(rs, ls[n]) }

  /** nft takes a file whole or not at all: every set and chain referred to must be declared. */
  predicate Loads(rs: Ruleset)
  {
    forall i :: 0 <= i < |rs.chains| ==> LinesLoad(rs, rs.chains[i].1)
  }

  /** The sets of the zones a rule names are declared. */
  predicate RuleSetsDeclared(sets: seq<(string, seq<string>)>, v: Vsys, r: Rule)
  {
    && (r.fromZone.Some? ==> SetDeclared(sets, ZoneSet(v.name, r.fromZone.value)))
    && (r.toZone.Some? ==> SetDeclared(sets, ZoneSet(v.name, r.toZone.value)))
  }

  lemma LinesLoadConcat(rs: Ruleset, a: seq<Line>, b: seq<Line>)
    ensures LinesLoad(rs, a + b) <==> LinesLoad(rs, a) && LinesLoad(rs, b)
  {
    hide LineLoads;
    assert forall n :: 0 <= n < |a| ==> (a + b)[n] == a[n];
    assert forall n :: 0 <= n < |b| ==> (a + b)[|a| + n] == b[n];
    if LinesLoad(rs, a + b) {
      forall n | 0 <= n < |b|
        ensures LineLoads(rs, b[n])
      {
        assert LineLoads(rs, (a + b)[|a| + n]);
      }
    }
  }

  lemma LineOfRuleLoads(c: Config, rs: Ruleset, v: Vsys, r: Rule)
    ensures LineLoads(rs, RuleLine(c, v, r)) <==> RuleSetsDeclared(rs.sets, v, r)
  {
    hide ZoneSet, SetDeclared;
    var a := if r.fromZone.Some? then [IifIn(ZoneSet(v.name, r.fromZone.value))] else [];
    var b := if r.toZone.Some? then [OifIn(ZoneSet(v.name, r.toZone.value))] else [];
    var ms := RuleLine(c, v, r).matches;
    assert ms == a + b + ProtoMatches(r);
    assert forall i :: 0 <= i < |ProtoMatches(r)| ==> !ProtoMatches(r)[i].IifIn? && !ProtoMatches(r)[i].OifIn?;
    assert r.fromZone.Some? ==> ms[0] == a[0];
    assert r.toZone.Some? ==> ms[|a|] == b[0];
  }

  lemma {:induction false} RuleLinesLoad(c: Config, rs: Ruleset, v: Vsys, rules: seq<Rule>)
    ensures LinesLoad(rs, RuleLines(c, v, rules)) <==>
            forall n :: 0 <= n < |rules| && rules[n].enabled ==> RuleSetsDeclared(rs.sets, v, rules[n])
  {
    if rules != [] {
      hide LineLoads, RuleSetsDeclared, RuleLine;
      var head := if rules[0].enabled then [RuleLine(c, v, rules[0])] else [];
      RuleLinesLoad(c, rs, v, rules[1..]);
      LinesLoadConcat(rs, head, RuleLines(c, v, rules[1..]));
      LineOfRuleLoads(c, rs, v, rules[0]);
      assert forall n :: 1 <= n < |rules| ==> rules[n] == rules[1..][n - 1];
      assert rules[0].enabled ==> head[0] == RuleLine(c, v, rules[0]);
    }
  }

  lemma {:induction false} SetsDeclare(vs: seq<Vsys>, name: string)
    ensures SetDeclared(Sets(vs), name) <==> exists i :: 0 <= i < |vs| && DeclaresSet(vs[i], name)
  {
    hide ZoneSet, IfaceSet, Interfaces;
    if vs != [] {
      var n := |vs| - 1;
      var v := vs[n];
      var a, b, d := Sets(vs[..n]), ZoneSets(v.name, v.zones), [(IfaceSet(v.name), Interfaces(v.zones))];
      SetsDeclare(vs[..n], name);
      assert forall i :: 0 <= i < n ==> vs[..n][i] == vs[i];
      DeclaredConcat(a, b, name);
      DeclaredConcat(a + b, d, name);
      assert SetDeclared(d, name) <==> IfaceSet(v.name) == name by { assert d[0].0 == IfaceSet(v.name); }
      assert forall k :: 0 <= k < |v.zones| ==> b[k].0 == ZoneSet(v.name, v.zones[k].name);
    }
  }

  /** Vsys v declares a set of that name. */
  predicate DeclaresSet(v: Vsys, name: string)
  {
    IfaceSet(v.name) == name || exists k :: 0 <= k < |v.zones| && ZoneSet(v.name, v.zones[k].name) == name
  }

  lemma DeclaredConcat(a: seq<(string, seq<string>)>, b: seq<(string, seq<string>)>, name: string)
    ensures SetDeclared(a + b, name) <==> SetDeclared(a, name) || SetDeclared(b, name)
  {
    assert forall i :: 0 <= i < |a| ==> (a + b)[i] == a[i];
    assert forall i :: 0 <= i < |b| ==> (a + b)[|a| + i] == b[i];
    if SetDeclared(a + b, name) {
      var i :| 0 <= i < |a + b| && (a + b)[i].0 == name;
      if i >= |a| { assert b[i - |a|] == (a + b)[i]; }
    }
  }

  lemma VsysChainLoads(c: Config, rs: Ruleset, v: Vsys)
    ensures LinesLoad(rs, VsysChain(c, v)) <==>
            forall n :: 0 <= n < |v.rules| && v.rules[n].enabled ==> RuleSetsDeclared(rs.sets, v, v.rules[n])
  {
    hide RuleSetsDeclared, RuleLines, Inspects;
    var head := VsysChain(c, v)[..3];
    assert VsysChain(c, v) == head + RuleLines(c, v, v.rules);
    LinesLoadConcat(rs, head, RuleLines(c, v, v.rules));
    RuleLinesLoad(c, rs, v, v.rules);
  }

  lemma ForwardChainLoads(c: Config)
    ensures LinesLoad(Compile(c), ForwardChain(c))
  {
    hide ChainName, IfaceSet, VsysChain, LinesLoad, Dispatch, DosLines, Sets;
    var rs := Compile(c);
    var head, jumps, last := [Line([StateIn({Invalid})], Do(Drop))] + DosLines(c.dos), Dispatch(c.vsys), [Line([], LogOnly)];
    PlainLinesLoad(c, rs);
    DispatchLoads(c);
    LinesLoadConcat(rs, head, jumps);
    LinesLoadConcat(rs, head + jumps, last);
  }

  lemma PlainLinesLoad(c: Config, rs: Ruleset)
    ensures LinesLoad(rs, [Line([StateIn({Invalid})], Do(Drop))] + DosLines(c.dos)) && LinesLoad(rs, [Line([], LogOnly)])
  {
  }

  lemma DispatchLoads(c: Config)
    ensures LinesLoad(Compile(c), Dispatch(c.vsys))
  {
    hide ChainName, IfaceSet, VsysChain, ForwardChain, Sets, SetDeclared;
    var rs, jumps := Compile(c), Dispatch(c.vsys);
    forall n | 0 <= n < |jumps|
      ensures LineLoads(rs, jumps[n])
    {
      SetsDeclare(c.vsys, IfaceSet(c.vsys[n].name));
      assert DeclaresSet(c.vsys[n], IfaceSet(c.vsys[n].name));
      assert rs.chains[n + 1].0 == ChainName(c.vsys[n].name);
    }
  }

  /** The generated file loads exactly when the sets of all zones its enabled rules name are
      declared by some vsys. */
  lemma LoadsIff(c: Config)
    ensures Loads(Compile(c)) <==>
            forall i, n :: 0 <= i < |c.vsys| && 0 <= n < |c.vsys[i].rules| && c.vsys[i].rules[n].enabled ==>
              RuleSetsDeclared(Sets(c.vsys), c.vsys[i], c.vsys[i].rules[n])
  {
    hide RuleSetsDeclared, VsysChain, ForwardChain, LinesLoad, Sets, ChainName;
    var rs := Compile(c);
    ForwardChainLoads(c);
    assert rs.chains[0].1 == ForwardChain(c);
    forall i | 0 <= i < |c.vsys|
      ensures rs.chains[i + 1].1 == VsysChain(c, c.vsys[i])
      ensures LinesLoad(rs, rs.chains[i + 1].1) <==>
              forall n :: 0 <= n < |c.vsys[i].rules| && c.vsys[i].rules[n].enabled ==>
                RuleSetsDeclared(Sets(c.vsys), c.vsys[i], c.vsys[i].rules[n])
    {
      VsysChainLoads(c, rs, c.vsys[i]);
    }
    if Loads(rs) {
      forall i | 0 <= i < |c.vsys|
        ensures LinesLoad(rs, VsysChain(c, c.vsys[i]))
      {
        assert LinesLoad(rs, rs.chains[i + 1].1);
      }
    }
  }

  /** Rules that name only zones of their own vsys load; where names are plain, only they do. */
  lemma DeclaredLoads(c: Config)
    ensures ZonesDeclared(c.vsys) ==> Loads(Compile(c))
    ensures PlainNames(c.vsys) ==> (Loads(Compile(c)) <==> ZonesDeclared(c.vsys))
  {
    hide ZoneSet, IfaceSet, Plain, PlainNames, Loads, Compile, SetDeclared, Sets;
    LoadsIff(c);
    forall i, z | 0 <= i < |c.vsys|
      ensures Declares(c.vsys[i], z) ==> SetDeclared(Sets(c.vsys), ZoneSet(c.vsys[i].name, z))
      ensures PlainNames(c.vsys) ==> (SetDeclared(Sets(c.vsys), ZoneSet(c.vsys[i].name, z)) <==> Declares(c.vsys[i], z))
    {
      SetOfZone(c.vsys, i, z);
    }
  }

  /** Distinct names without underscores. */
  ghost predicate PlainNames(vs: seq<Vsys>)
  {
    && (forall i :: 0 <= i < |vs| ==> Plain(vs[i].name))
    && (forall i, j :: 0 <= i < j < |vs| ==> vs[i].name != vs[j].name)
  }

  lemma SetOfZone(vs: seq<Vsys>, i: nat, z: string)
    requires i < |vs|
    ensures Declares(vs[i], z) ==> SetDeclared(Sets(vs), ZoneSet(vs[i].name, z))
    ensures PlainNames(vs) ==> (SetDeclared(Sets(vs), ZoneSet(vs[i].name, z)) <==> Declares(vs[i], z))
  {
    hide ZoneSet, PlainNames, SetDeclared, Sets, Declares, DeclaresSet;
    var name := ZoneSet(vs[i].name, z);
    SetsDeclare(vs, name);
    OwnZoneSet(vs[i], z);
    if PlainNames(vs) && SetDeclared(Sets(vs), name) {
      var j :| 0 <= j < |vs| && DeclaresSet(vs[j], name);
      OnlyOwnZoneSet(vs, i, j, z);
    }
  }

  lemma OwnZoneSet(v: Vsys, z: string)
    ensures Declares(v, z) ==> DeclaresSet(v, ZoneSet(v.name, z))
  {
    hide ZoneSet, IfaceSet;
    if Declares(v, z) {
      var k :| 0 <= k < |NamesOf(v).zones| && NamesOf(v).zones[k] == z;
      assert v.zones[k].name == z;
    }
  }

  lemma OnlyOwnZoneSet(vs: seq<Vsys>, i: nat, j: nat, z: string)
    requires PlainNames(vs) && i < |vs| && j < |vs| && DeclaresSet(vs[j], ZoneSet(vs[i].name, z))
    ensures Declares(vs[i], z)
  {
    hide ZoneSet, IfaceSet, Plain;
    NamesApart(vs[i].name, vs[j].name, z, "");
    var k :| 0 <= k < |vs[j].zones| && ZoneSet(vs[j].name, vs[j].zones[k].name) == ZoneSet(vs[i].name, z);
    NamesApart(vs[j].name, vs[i].name, vs[j].zones[k].name, z);
    assert NamesOf(vs[j]).zones[k] == z;
  }

  // ---- colliding names --------------------------------------------------------------------

  /** Only accepting lines decide. */
  ghost predicate Lax(rs: Ruleset, ls: seq<Line>, p: Packet, k: Kernel)
  {
    forall n :: 0 <= n < |ls| && ls[n].act.Do? && LineMatches(rs.sets, ls[n], p, k) ==> ls[n].act == Do(Accept)
  }

  ghost predicate AllLax(rs: Ruleset, p: Packet, k: Kernel)
  {
    forall i :: 0 <= i < |rs.chains| ==> Lax(rs, rs.chains[i].1, p, k)
  }

  lemma LaxConcat(rs: Ruleset, a: seq<Line>, b: seq<Line>, p: Packet, k: Kernel)
    requires Lax(rs, a, p, k) && Lax(rs, b, p, k)
    ensures Lax(rs, a + b, p, k)
  {
    hide LineMatches;
  }

  lemma {:induction false} ChainLinesLax(rs: Ruleset, chains: seq<(string, seq<Line>)>, name: string, p: Packet, k: Kernel)
    requires forall i :: 0 <= i < |chains| ==> Lax(rs, chains[i].1, p, k)
    ensures Lax(rs, ChainLines(chains, name), p, k)
  {
    if chains != [] {
      hide Lax;
      ChainLinesLax(rs, chains[1..], name, p, k);
      NoLinesLax(rs, p, k);
      LaxConcat(rs, if chains[0].0 == name then chains[0].1 else [], ChainLines(chains[1..], name), p, k);
    }
  }

  lemma NoLinesLax(rs: Ruleset, p: Packet, k: Kernel)
    ensures Lax(rs, [], p, k)
  {
  }

  lemma {:induction false} LaxEval(rs: Ruleset, ls: seq<Line>, p: Packet, k: Kernel, marks: Marks, jumps: nat)
    requires AllLax(rs, p, k) && Lax(rs, ls, p, k)
    ensures var v := Eval(rs, ls, p, k, marks, jumps).verdict; v == None || v == Some(Accept)
    decreases jumps, |ls|
  {
    hide LineMatches;
    if ls != [] {
      var l := ls[0];
      if LineMatches(rs.sets, l, p, k) && l.act.Jump? && jumps > 0 {
        ChainLinesLax(rs, rs.chains, l.act.chain, p, k);
        LaxEval(rs, ChainLines(rs.chains, l.act.chain), p, k, marks, jumps - 1);
      }
      LaxEval(rs, ls[1..], p, k, EvalLine(rs, l, p, k, marks, jumps).marks, jumps);
    }
  }

  /** The line accepts, itself or through the chain it jumps to. */
  ghost predicate Accepts(rs: Ruleset, l: Line, p: Packet, k: Kernel, jumps: nat)
  {
    && LineMatches(rs.sets, l, p, k)
    && (|| l.act == Do(Accept)
        || (l.act.Jump? && jumps > 0 && AcceptsDirectly(rs, ChainLines(rs.chains, l.act.chain), p, k)))
  }

  ghost predicate AcceptsDirectly(rs: Ruleset, ls: seq<Line>, p: Packet, k: Kernel)
  {
    exists n :: 0 <= n < |ls| && LineMatches(rs.sets, ls[n], p, k) && ls[n].act == Do(Accept)
  }

  lemma {:induction false} Reaches(rs: Ruleset, ls: seq<Line>, n: nat, p: Packet, k: Kernel, marks: Marks, jumps: nat)
    requires AllLax(rs, p, k) && Lax(rs, ls, p, k) && n < |ls| && Accepts(rs, ls[n], p, k, jumps)
    ensures Eval(rs, ls, p, k, marks, jumps).verdict == Some(Accept)
    decreases jumps, |ls|
  {
    hide LineMatches, Lax;
    var l := ls[0];
    LaxTail(rs, ls, p, k);
    if n > 0 {
      LaxLine(rs, l, p, k, marks, jumps);
      Reaches(rs, ls[1..], n - 1, p, k, EvalLine(rs, l, p, k, marks, jumps).marks, jumps);
    } else if l.act.Jump? {
      var inner := ChainLines(rs.chains, l.act.chain);
      ChainLinesLax(rs, rs.chains, l.act.chain, p, k);
      var m :| 0 <= m < |inner| && LineMatches(rs.sets, inner[m], p, k) && inner[m].act == Do(Accept);
      Reaches(rs, inner, m, p, k, marks, jumps - 1);
    }
  }

  lemma LaxTail(rs: Ruleset, ls: seq<Line>, p: Packet, k: Kernel)
    requires Lax(rs, ls, p, k) && ls != []
    ensures Lax(rs, ls[1..], p, k) && Lax(rs, [ls[0]], p, k)
  {
    hide LineMatches;
  }

  lemma LaxLine(rs: Ruleset, l: Line, p: Packet, k: Kernel, marks: Marks, jumps: nat)
    requires AllLax(rs, p, k) && Lax(rs, [l], p, k)
    ensures var v := EvalLine(rs, l, p, k, marks, jumps).verdict; v == None || v == Some(Accept)
  {
    LaxEval(rs, [l], p, k, marks, jumps);
    EvalOne(rs, l, p, k, marks, jumps);
  }

  /** A configuration without limiters, all of whose rules accept. */
  ghost predicate Lenient(c: Config)
  {
    && !c.dos.enable
    && forall i, n :: 0 <= i < |c.vsys| && 0 <= n < |c.vsys[i].rules| ==> RuleVerdict(c, c.vsys[i], c.vsys[i].rules[n]) == Accept
  }

  lemma {:induction false} RuleLinesAccept(c: Config, rs: Ruleset, v: Vsys, rules: seq<Rule>, p: Packet, k: Kernel)
    requires forall n :: 0 <= n < |rules| ==> RuleVerdict(c, v, rules[n]) == Accept
    ensures Lax(rs, RuleLines(c, v, rules), p, k)
  {
    hide LineMatches, ProtoMatches, ZoneSet;
    if rules != [] {
      RuleLinesAccept(c, rs, v, rules[1..], p, k);
      LaxConcat(rs, if rules[0].enabled then [RuleLine(c, v, rules[0])] else [], RuleLines(c, v, rules[1..]), p, k);
    }
  }

  lemma LenientIsLax(c: Config, p: Packet, k: Kernel)
    requires Lenient(c) && p.state == New
    ensures AllLax(Compile(c), p, k)
  {
    hide Lax, ChainName, IfaceSet, RuleLines, RuleVerdict;
    var rs := Compile(c);
    forall i | 0 <= i < |c.vsys|
      ensures Lax(rs, VsysChain(c, c.vsys[i]), p, k)
    {
      RuleLinesAccept(c, rs, c.vsys[i], c.vsys[i].rules, p, k);
      HeadIsLax(c, rs, c.vsys[i], p, k);
      LaxConcat(rs, VsysChain(c, c.vsys[i])[..3], RuleLines(c, c.vsys[i], c.vsys[i].rules), p, k);
    }
    ForwardIsLax(c, rs, p, k);
  }

  lemma HeadIsLax(c: Config, rs: Ruleset, v: Vsys, p: Packet, k: Kernel)
    requires p.state == New
    ensures VsysChain(c, v) == VsysChain(c, v)[..3] + RuleLines(c, v, v.rules) && Lax(rs, VsysChain(c, v)[..3], p, k)
  {
    hide RuleLines, Inspects;
    AllHoldOne(rs.sets, StateIn({Established, Related}), p, k);
  }

  lemma ForwardIsLax(c: Config, rs: Ruleset, p: Packet, k: Kernel)
    requires !c.dos.enable && p.state == New
    ensures Lax(rs, ForwardChain(c), p, k)
  {
    hide ChainName, IfaceSet;
    AllHoldOne(rs.sets, StateIn({Invalid}), p, k);
  }

  /** In a lenient configuration a new packet dispatched to vsys j whose rule line matches is accepted. */
  lemma LeakAccepts(c: Config, j: nat, p: Packet, k: Kernel)
    requires Lenient(c) && p.state == New && j < |c.vsys| && |c.vsys[j].rules| == 1 && c.vsys[j].rules[0].enabled
    requires InSet(Sets(c.vsys), IfaceSet(c.vsys[j].name), p.iif)
    requires LineMatches(Sets(c.vsys), RuleLine(c, c.vsys[j], c.vsys[j].rules[0]), p, k)
    ensures Forward(Compile(c), c.policy, p, k).0 == Accept
  {
    hide Lax, InSet, LineMatches, Sets, IfaceSet, ChainName, RuleLine;
    var rs, v := Compile(c), c.vsys[j];
    LenientIsLax(c, p, k);
    ForwardOnly(c);
    assert rs.chains[0].1 == ForwardChain(c);
    RuleInChain(c, c.vsys, j);
    var n :| 0 <= n < |ChainLines(VsysChains(c, c.vsys), ChainName(v.name))|
             && ChainLines(VsysChains(c, c.vsys), ChainName(v.name))[n] == RuleLine(c, v, v.rules[0]);
    DispatchAccepts(c, j, n, p, k);
    assert DosLines(c.dos) == [];
    assert ForwardChain(c)[1 + j] == Dispatch(c.vsys)[j];
    Reaches(rs, ForwardChain(c), 1 + j, p, k, UNMARKED, MAX_JUMPS);
  }

  lemma DispatchAccepts(c: Config, j: nat, n: nat, p: Packet, k: Kernel)
    requires j < |c.vsys| && |c.vsys[j].rules| == 1 && RuleVerdict(c, c.vsys[j], c.vsys[j].rules[0]) == Accept
    requires InSet(Sets(c.vsys), IfaceSet(c.vsys[j].name), p.iif)
    requires LineMatches(Sets(c.vsys), RuleLine(c, c.vsys[j], c.vsys[j].rules[0]), p, k)
    requires var ls := ChainLines(VsysChains(c, c.vsys), ChainName(c.vsys[j].name));
             n < |ls| && ls[n] == RuleLine(c, c.vsys[j], c.vsys[j].rules[0])
    ensures Accepts(Compile(c), Dispatch(c.vsys)[j], p, k, MAX_JUMPS)
  {
    hide InSet, Sets, IfaceSet, RuleVerdict, ForwardChain, VsysChain, AllHold, ProtoMatches;
    var rs, v := Compile(c), c.vsys[j];
    AllHoldOne(rs.sets, IifIn(IfaceSet(v.name)), p, k);
    OwnNames(v.name, v.name, "", "");
    assert rs.chains[1..] == VsysChains(c, c.vsys) && rs.chains[0].0 == "forward";
    assert ChainLines(rs.chains, ChainName(v.name)) == ChainLines(VsysChains(c, c.vsys), ChainName(v.name));
    RuleLineActs(c, v, v.rules[0]);
  }

  lemma {:induction false} InChain(chains: seq<(string, seq<Line>)>, i: nat, l: Line)
    requires i < |chains| && l in chains[i].1
    ensures l in ChainLines(chains, chains[i].0)
  {
    if i > 0 { InChain(chains[1..], i - 1, l); }
  }

  lemma RuleInChain(c: Config, vs: seq<Vsys>, j: nat)
    requires j < |vs| && |vs[j].rules| == 1 && vs[j].rules[0].enabled
    ensures RuleLine(c, vs[j], vs[j].rules[0]) in ChainLines(VsysChains(c, vs), ChainName(vs[j].name))
  {
    hide ChainName, RuleLine;
    var v := vs[j];
    var l := RuleLine(c, v, v.rules[0]);
    assert RuleLines(c, v, v.rules) == [l] + RuleLines(c, v, v.rules[1..]);
    assert VsysChain(c, v)[3] == l;
    assert VsysChains(c, vs)[j] == (ChainName(v.name), VsysChain(c, v));
    InChain(VsysChains(c, vs), j, l);
  }

  // ---- the exact condition on names ------------------------------------------------------------

  /** A configuration with the given names: interfaces put into zones by `inside`, one rule in
      vsys `at`, everything else empty, and a default of drop. */
  ghost function Build(ns: seq<Names>, inside: (nat, string) -> seq<string>, at: nat, r: Rule): (c: Config)
  {
    Config(seq(|ns|, i requires 0 <= i < |ns| => BuildVsys(ns, inside, at, r, i)), false, Drop, Dos(false, 0))
  }

  ghost function BuildVsys(ns: seq<Names>, inside: (nat, string) -> seq<string>, at: nat, r: Rule, i: nat): (v: Vsys)
    requires i < |ns|
  {
    Vsys(ns[i].vsys,
         seq(|ns[i].zones|, m requires 0 <= m < |ns[i].zones| => Zone(ns[i].zones[m], inside(i, ns[i].zones[m]))),
         if i == at then [r] else [], i, i)
  }

  lemma BuildNames(ns: seq<Names>, inside: (nat, string) -> seq<string>, at: nat, r: Rule)
    ensures AllNames(Build(ns, inside, at, r).vsys) == ns
  {
    var c := Build(ns, inside, at, r);
    forall i | 0 <= i < |ns|
      ensures NamesOf(c.vsys[i]) == ns[i]
    {
      assert NamesOf(c.vsys[i]).zones == ns[i].zones;
    }
  }

  /** Where a built interface lies. */
  lemma BuiltOwns(ns: seq<Names>, inside: (nat, string) -> seq<string>, at: nat, r: Rule, i: nat, x: string)
    requires i < |ns|
    ensures var v := Build(ns, inside, at, r).vsys[i];
            && (x in Interfaces(v.zones) <==> exists z :: z in ns[i].zones && x in inside(i, z))
            && (forall z :: ZoneHas(v, Some(z), x) <==> z in ns[i].zones && x in inside(i, z))
            && (forall z :: z in ns[i].zones && x in inside(i, z) ==> Contributes(v, ZoneSet(ns[i].vsys, z), x))
            && (x in Interfaces(v.zones) ==> Contributes(v, IfaceSet(ns[i].vsys), x))
  {
    hide ZoneSet, IfaceSet;
    var v := Build(ns, inside, at, r).vsys[i];
    forall z | z in ns[i].zones
      ensures exists m :: 0 <= m < |v.zones| && v.zones[m] == Zone(z, inside(i, z))
    {
      var m :| 0 <= m < |ns[i].zones| && ns[i].zones[m] == z;
      assert v.zones[m] == Zone(z, inside(i, z));
    }
  }

  /** Accepts everything, or everything bound for a zone. */
  ghost function AcceptTo(zone: Option<string>): (r: Rule)
  {
    Rule("", None, zone, None, None, AnyRule, [], Allow, false, false, true)
  }

  const NO_LIMITS := Kernel((_, _) => false, false, false, false, false)

  ghost function NewPacket(iif: string, oif: string): (p: Packet)
  {
    Packet(iif, oif, New, OtherL4, false, false, "", "", 0)
  }

  /** The configuration is one the theorem is about, yet the packet is not treated as it says. */
  ghost predicate Broken(ns: seq<Names>, c: Config, p: Packet, k: Kernel)
  {
    AllNames(c.vsys) == ns && Disjoint(c.vsys) && ZonesDeclared(c.vsys) && !Preserved(c, p, k)
  }

  /** A packet of vsys o that is dispatched to vsys `at` as well and meets its rule there is
      accepted, although its own vsys says nothing. */
  lemma LeakBreaks(ns: seq<Names>, inside: (nat, string) -> seq<string>, at: nat, zone: Option<string>,
                                      o: nat, p: Packet)
    requires at < |ns| && o < |ns| && p == NewPacket(p.iif, p.oif) && (zone.Some? ==> zone.value in ns[at].zones)
    requires Disjoint(Build(ns, inside, at, AcceptTo(zone)).vsys)
    requires var c := Build(ns, inside, at, AcceptTo(zone));
             && Owns(c.vsys[o], p) && InSet(Sets(c.vsys), IfaceSet(ns[at].vsys), p.iif)
             && (zone.Some? ==> InSet(Sets(c.vsys), ZoneSet(ns[at].vsys, zone.value), p.oif))
             && (o == at ==> zone.Some? && !ZoneHas(c.vsys[at], zone, p.oif))
    ensures Broken(ns, Build(ns, inside, at, AcceptTo(zone)), p, NO_LIMITS)
  {
    hide InSet, Sets, IfaceSet, ZoneSet, Interfaces, Disjoint;
    var r := AcceptTo(zone);
    var c := Build(ns, inside, at, r);
    BuildNames(ns, inside, at, r);
    assert NamesOf(c.vsys[at]) == AllNames(c.vsys)[at];
    assert c.vsys[at].rules == [r];
    LineOfRule(c, c.vsys[at], zone, p);
    assert Lenient(c);
    LeakAccepts(c, at, p, NO_LIMITS);
    SaysNothing(c, c.vsys[o], zone, p);
  }

  lemma LineOfRule(c: Config, v: Vsys, zone: Option<string>, p: Packet)
    requires zone.Some? ==> InSet(Sets(c.vsys), ZoneSet(v.name, zone.value), p.oif)
    ensures LineMatches(Sets(c.vsys), RuleLine(c, v, AcceptTo(zone)), p, NO_LIMITS)
  {
    hide InSet, Sets, ZoneSet;
    var r := AcceptTo(zone);
    assert ProtoMatches(r) == [];
    if zone.Some? {
      assert RuleLine(c, v, r).matches == [OifIn(ZoneSet(v.name, zone.value))];
      AllHoldOne(Sets(c.vsys), OifIn(ZoneSet(v.name, zone.value)), p, NO_LIMITS);
    }
  }

  lemma SaysNothing(c: Config, v: Vsys, zone: Option<string>, p: Packet)
    requires p.state == New && (v.rules == [] || (v.rules == [AcceptTo(zone)] && zone.Some? && !ZoneHas(v, zone, p.oif)))
    ensures VsysSays(c, v, p, NO_LIMITS) == None
  {
    if v.rules != [] { assert FirstRule(c, v, v.rules[1..], p, NO_LIMITS) == None; }
  }

  /** Two vsys of one name, one of them with a zone: its packets meet the other's rules. */
  lemma SharedNameBreaks(ns: seq<Names>, i: nat, j: nat)
    requires i < |ns| && j < |ns| && i != j && ns[j].zones != [] && ns[i].vsys == ns[j].vsys
    ensures exists c, p, k :: Broken(ns, c, p, k)
  {
    hide Broken, ZoneSet, IfaceSet, Interfaces, InSet;
    var z := ns[j].zones[0];
    var inside := (n: nat, y: string) => if n == j && y == z then ["w"] else [];
    var r, p := AcceptTo(None), NewPacket("w", "");
    var c := Build(ns, inside, i, r);
    BuiltDisjoint(ns, inside, i, r);
    BuiltOwns(ns, inside, i, r, j, "w");
    assert z in ns[j].zones && "w" in inside(j, z);
    SetsContain(c.vsys, IfaceSet(ns[i].vsys), "w");
    LeakBreaks(ns, inside, i, None, j, p);
    assert Broken(ns, c, p, NO_LIMITS);
  }

  /** A zone set named like another's interface set: the zone's packets meet the other's rules. */
  lemma ZoneLikeIfacesBreaks(ns: seq<Names>, i: nat, j: nat, z: string)
    requires i < |ns| && j < |ns| && i != j && z in ns[i].zones && ZoneSet(ns[i].vsys, z) == IfaceSet(ns[j].vsys)
    ensures exists c, p, k :: Broken(ns, c, p, k)
  {
    hide Broken, ZoneSet, IfaceSet, Interfaces, InSet;
    var inside := (n: nat, y: string) => if n == i && y == z then ["w"] else [];
    var r, p := AcceptTo(None), NewPacket("w", "");
    var c := Build(ns, inside, j, r);
    BuiltDisjoint(ns, inside, j, r);
    BuiltOwns(ns, inside, j, r, i, "w");
    SetsContain(c.vsys, IfaceSet(ns[j].vsys), "w");
    LeakBreaks(ns, inside, j, None, i, p);
    assert Broken(ns, c, p, NO_LIMITS);
  }

  /** Two zone sets of one name: a rule to the one zone lets packets out through the other. */
  lemma SharedZoneBreaks(ns: seq<Names>, i: nat, j: nat, z: string, y: string)
    requires i < |ns| && j < |ns| && i != j && z in ns[i].zones && y in ns[j].zones && ZoneSet(ns[i].vsys, z) == ZoneSet(ns[j].vsys, y)
    ensures exists c, p, k :: Broken(ns, c, p, k)
  {
    hide Broken, ZoneSet, IfaceSet, Interfaces, InSet;
    var inside := (n: nat, x: string) => if n == i && x == z then ["u"] else if n == j && x == y then ["w"] else [];
    var r, p := AcceptTo(Some(z)), NewPacket("u", "w");
    var c := Build(ns, inside, i, r);
    BuiltDisjoint(ns, inside, i, r);
    BuiltOwns(ns, inside, i, r, i, "u");
    BuiltOwns(ns, inside, i, r, i, "w");
    BuiltOwns(ns, inside, i, r, j, "w");
    SetsContain(c.vsys, IfaceSet(ns[i].vsys), "u");
    SetsContain(c.vsys, ZoneSet(ns[i].vsys, z), "w");
    LeakBreaks(ns, inside, i, Some(z), i, p);
    assert Broken(ns, c, p, NO_LIMITS);
  }

  lemma BuiltDisjoint(ns: seq<Names>, inside: (nat, string) -> seq<string>, at: nat, r: Rule)
    requires forall i, j, y, z, x :: 0 <= i < j < |ns| && x in inside(i, z) ==> x !in inside(j, y)
    ensures Disjoint(Build(ns, inside, at, r).vsys)
  {
    hide Interfaces;
    var vs := Build(ns, inside, at, r).vsys;
    forall i, j, x | 0 <= i < j < |vs| && x in Interfaces(vs[i].zones)
      ensures x !in Interfaces(vs[j].zones)
    {
      BuiltOwns(ns, inside, at, r, i, x);
      BuiltOwns(ns, inside, at, r, j, x);
    }
  }

  /** For given names of vsys and zones, the compiler preserves the meaning of every
      configuration that uses them, whatever its interfaces and rules, for every packet,
      exactly when the names are clear. */
  lemma NamesClearIff(ns: seq<Names>)
    ensures (forall c: Config, p: Packet, k: Kernel :: AllNames(c.vsys) == ns && Disjoint(c.vsys) && ZonesDeclared(c.vsys) ==> Preserved(c, p, k))
            <==> Clear(ns)
  {
    hide Preserved, Disjoint, ZonesDeclared, ZoneSet, IfaceSet;
    if Clear(ns) {
      forall c: Config, p: Packet, k: Kernel | AllNames(c.vsys) == ns && Disjoint(c.vsys) && ZonesDeclared(c.vsys)
        ensures Preserved(c, p, k)
      {
        CompiledMeansConfigured(c, p, k);
      }
    } else {
      CollisionBreaks(ns);
      var c, p, k :| Broken(ns, c, p, k);
    }
  }

  lemma CollisionBreaks(ns: seq<Names>)
    requires !Clear(ns)
    ensures exists c, p, k :: Broken(ns, c, p, k)
  {
    hide Broken, ZoneSet, IfaceSet;
    if i, j :| 0 <= i < |ns| && 0 <= j < |ns| && i != j && ns[j].zones != [] && ns[i].vsys == ns[j].vsys {
      SharedNameBreaks(ns, i, j);
    } else if i, j, z :| 0 <= i < |ns| && 0 <= j < |ns| && i != j && z in ns[i].zones
                         && ZoneSet(ns[i].vsys, z) == IfaceSet(ns[j].vsys) {
      ZoneLikeIfacesBreaks(ns, i, j, z);
    } else {
      var i, j, y, z :| 0 <= i < |ns| && 0 <= j < |ns| && i != j && z in ns[i].zones && y in ns[j].zones
                        && ZoneSet(ns[i].vsys, z) == ZoneSet(ns[j].vsys, y);
      SharedZoneBreaks(ns, i, j, z, y);
    }
  }

  /** Names with underscores do collide, both ways. */
  lemma UnderscoresCollide(a: string, b: string, x: string)
    ensures !Clear([Names(a, [b + "_zone_" + x]), Names(a + "_zone_" + b, [x])])
    ensures !Clear([Names(a, [b + "_ifaces"]), Names(a + "_zone_" + b, [])])
  {
    var ab := a + "_zone_" + b;
    var y, z := b + "_zone_" + x, b + "_ifaces";
    assert ZoneSet(a, y) == ZoneSet(ab, x) by { assert a + "_zone_" + (b + "_zone_" + x) == ab + "_zone_" + x; }
    assert ZoneSet(a, z) == IfaceSet(ab) by { assert a + "_zone_" + (b + "_ifaces") == ab + "_ifaces"; }
    hide ZoneSet, IfaceSet;
    var one, two := [Names(a, [y]), Names(ab, [x])], [Names(a, [z]), Names(ab, [])];
    assert one[0].vsys == a && y in one[0].zones && one[1].vsys == ab && x in one[1].zones;
    assert two[0].vsys == a && z in two[0].zones && two[1].vsys == ab;
  }

  // ---- queue numbers and tags ------------------------------------------------------------------------

  function IsDigit(c: char): (b: bool) { '0' <= c <= '9' }

  /** The value of the digits a name ends with; 0 if it ends with none. */
  function TrailingNumber(name: string): (n: nat)
  {
    if name == [] || !IsDigit(name[|name| - 1]) then 0
    else 10 * TrailingNumber(name[..|name| - 1]) + (name[|name| - 1] as int - '0' as int)
  }

  /** A positive trailing number of the name, else the one-based position. */
  function DeriveId(name: string, index: nat): (id: int)
    ensures id > 0
  {
    if TrailingNumber(name) > 0 then TrailingNumber(name) else index + 1
  }

  function Tag(v: Vsys, index: nat): (id: int) { if v.id != 0 then v.id else DeriveId(v.name, index) }

  /** What a name ends in: behind a part without a final digit, decimal digits count place by place. */
  lemma {:induction false} TrailingNumberMeans(front: string, digits: string)
    requires Decimals(digits) && (front == [] || !('0' <= front[|front| - 1] <= '9'))
    ensures TrailingNumber(front + digits) == PlaceValue(digits)
  {
    if digits == [] {
      assert front + digits == front;
    } else {
      var d, c := digits[..|digits| - 1], digits[|digits| - 1];
      assert digits == d + [c];
      assert (front + digits)[..|front + digits| - 1] == front + d && (front + digits)[|front + digits| - 1] == c;
      TrailingNumberMeans(front, d);
      PlaceValueLast(d, c);
    }
  }

  /** The tag of a vsys: the one given, else the number its name ends in, else, or if that is
      zero, its place counted from one. */
  lemma TagMeans(v: Vsys, index: nat, front: string, digits: string)
    requires v.name == front + digits && Decimals(digits) && (front == [] || !('0' <= front[|front| - 1] <= '9'))
    ensures v.id != 0 ==> Tag(v, index) == v.id
    ensures v.id == 0 ==> Tag(v, index) == if PlaceValue(digits) > 0 then PlaceValue(digits) else index + 1
  {
    hide TrailingNumber, PlaceValue;
    TrailingNumberMeans(front, digits);
  }

  /** The name ends in that positive number. */
  predicate EndsIn(name: string, n: int) { n > 0 && TrailingNumber(name) == n }

  predicate EndsInNone(name: string) { TrailingNumber(name) == 0 }

  /** How two vsys without a given tag come to share one: both names end in the same number, or
      one ends in the other's position while the other ends in none. */
  predicate DerivedTagsMeet(a: string, i: nat, b: string, j: nat)
  {
    || (exists n | 0 < n <= TrailingNumber(a) :: EndsIn(a, n) && EndsIn(b, n))
    || (EndsIn(a, j + 1) && EndsInNone(b)) || (EndsIn(b, i + 1) && EndsInNone(a))
  }

  /** Derived tags, unlike queue numbers, can coincide; exactly so. */
  lemma DerivedTagsMeetIff(a: string, i: nat, b: string, j: nat)
    requires i != j
    ensures DeriveId(a, i) == DeriveId(b, j) <==> DerivedTagsMeet(a, i, b, j)
  {
    if DeriveId(a, i) == DeriveId(b, j) && TrailingNumber(a) > 0 && TrailingNumber(b) > 0 {
      assert EndsIn(a, TrailingNumber(a)) && EndsIn(b, TrailingNumber(a));
    }
  }

  /** They do meet, both ways: whatever the first vsys is called, if its name ends in no number, a
      second called vsys1 shares its tag; and so do any two names that end in one digit. */
  lemma TagsDoMeet(a: string, b: string, c: char)
    requires '1' <= c <= '9'
    requires b == [] || !IsDigit(b[|b| - 1])
    requires a == [] || !IsDigit(a[|a| - 1])
    ensures DeriveId(a, 0) == DeriveId(b + "1", 1) && DerivedTagsMeet(a, 0, b + "1", 1)
    ensures DeriveId(a + [c], 0) == DeriveId(b + [c], 1) && DerivedTagsMeet(a + [c], 0, b + [c], 1)
  {
    LastDigit(b, '1');
    LastDigit(a, c);
    LastDigit(b, c);
    DerivedTagsMeetIff(a, 0, b + "1", 1);
    DerivedTagsMeetIff(a + [c], 0, b + [c], 1);
  }

  lemma LastDigit(s: string, c: char)
    requires IsDigit(c) && (s == [] || !IsDigit(s[|s| - 1]))
    ensures TrailingNumber(s + [c]) == c as int - '0' as int
  {
    assert (s + [c])[..|s|] == s;
  }

  /** When two vsys of a configuration end up with one tag. */
  predicate TagsMeet(vs: seq<Vsys>, i: nat, j: nat)
    requires i < |vs| && j < |vs|
  {
    if vs[i].id == 0 && vs[j].id == 0 then DerivedTagsMeet(vs[i].name, i, vs[j].name, j)
    else if vs[i].id == 0 then vs[j].id == DeriveId(vs[i].name, i)
    else if vs[j].id == 0 then vs[i].id == DeriveId(vs[j].name, j)
    else vs[i].id == vs[j].id
  }

  /** Queue numbers are consecutive, so no two vsys share one; a tag given in the configuration
      is kept, a missing one derived, and nothing else changes. Two tags coincide exactly when
      the configuration makes them meet. */
  method Finalize(vs: seq<Vsys>, base: int) returns (r: seq<Vsys>)
    ensures |r| == |vs|
    ensures forall i :: 0 <= i < |vs| ==> r[i] == vs[i].(queue := base + i, id := Tag(vs[i], i))
    ensures forall i, j :: 0 <= i < j < |r| ==> r[i].queue != r[j].queue
    ensures forall i, j :: 0 <= i < j < |r| ==> (r[i].id == r[j].id <==> TagsMeet(vs, i, j))
  {
    r := [];
    for i := 0 to |vs|
      invariant |r| == i
      invariant forall j :: 0 <= j < i ==> r[j] == vs[j].(queue := base + j, id := Tag(vs[j], j))
    {
      r := r + [vs[i].(queue := base + i, id := Tag(vs[i], i))];
    }
    hide DerivedTagsMeet, DeriveId;
    forall i, j | 0 <= i < j < |r|
      ensures r[i].id == r[j].id <==> TagsMeet(vs, i, j)
    {
      DerivedTagsMeetIff(vs[i].name, i, vs[j].name, j);
    }
  }

  /** The marks of a packet tell its vsys from another's exactly when their tags differ. */
  lemma MarksTellApart(c: Config, i: nat, j: nat, p: Packet, q: Packet, k: Kernel)
    requires WellFormed(c.vsys) && i < |c.vsys| && j < |c.vsys| && Owns(c.vsys[i], p) && Owns(c.vsys[j], q)
    requires p.state != Invalid && !Flooding(c.dos, p, k) && q.state != Invalid && !Flooding(c.dos, q, k)
    ensures Forward(Compile(c), c.policy, p, k).1 == Forward(Compile(c), c.policy, q, k).1 <==> c.vsys[i].id == c.vsys[j].id
  {
    hide Forward, Compile, Flooding, WellFormed, Owns, VsysSays;
    CompiledMeansConfigured(c, p, k);
    CompiledMeansConfigured(c, q, k);
  }
}
