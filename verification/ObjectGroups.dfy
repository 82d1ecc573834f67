/** Configuration objects: name resolution, the depth-first check of group membership, and
    the sweep that guards every saved candidate. */
module ObjectGroups {
  import opened Words

  /** An object's place: its scope, whether its kind is a group kind, the family the kind
      belongs to (address, service, application), and its name. */
  datatype Key = Key(scope: string, group: bool, family: string, name: string)

  datatype Entry = Plain | Static(members: seq<string>) | Dynamic

  /** A group entry without a static list has no members. */
  function Members(e: Entry): (ms: seq<string>) { if e.Static? then e.members else [] }

  type Index = map<Key, Entry>

  const SHARED := "shared"
  const MAX_DEPTH := 64

  /** Local before shared, plain object before group. */
  function Resolve(index: Index, scope: string, name: string, family: string): (r: Option<Key>)
    ensures r.Some? ==> r.value in index && r.value.name == name && r.value.family == family
    ensures r.Some? ==> r.value.scope == scope || r.value.scope == SHARED
    ensures r.None? <==> forall k :: k in index ==>
              !(k.name == name && k.family == family && (k.scope == scope || k.scope == SHARED))
    ensures r.Some? && r.value.scope != scope ==>
              Key(scope, false, family, name) !in index && Key(scope, true, family, name) !in index
    ensures r.Some? && r.value.group ==> r.value.(group := false) !in index
  {
    if Key(scope, false, family, name) in index then Some(Key(scope, false, family, name))
    else if Key(scope, true, family, name) in index then Some(Key(scope, true, family, name))
    else if Key(SHARED, false, family, name) in index then Some(Key(SHARED, false, family, name))
    else if Key(SHARED, true, family, name) in index then Some(Key(SHARED, true, family, name))
    else
      assert forall k: Key :: k == Key(k.scope, false, k.family, k.name) || k == Key(k.scope, true, k.family, k.name);
      None
  }

  // ---- the membership graph ---------------------------------------------------------

  function MemberTarget(index: Index, k: Key, i: nat): (r: Option<Key>)
    requires k in index && !index[k].Dynamic? && i < |Members(index[k])|
  {
    Resolve(index, k.scope, Members(index[k])[i], k.family)
  }

  /** b is what some member name of group a resolves to. */
  predicate Edge(index: Index, a: Key, b: Key)
  {
    && a in index && a.group && index[a].Static?
    && exists i :: 0 <= i < |index[a].members| && Resolve(index, a.scope, index[a].members[i], a.family) == Some(b)
  }

  /** An object that exists and, if a group, is static with every member resolving. */
  predicate GoodNode(index: Index, k: Key)
  {
    && k in index
    && (k.group ==>
          match index[k]
          case Dynamic => false
          case Static(members) => forall i :: 0 <= i < |members| ==> Resolve(index, k.scope, members[i], k.family).Some?
          case Plain => true)
  }

  ghost predicate Path(index: Index, p: seq<Key>)
  {
    p != [] && forall i :: 0 <= i < |p| - 1 ==> Edge(index, p[i], p[i + 1])
  }

  ghost predicate Simple(p: seq<Key>) { forall i, j :: 0 <= i < j < |p| ==> p[i] != p[j] }

  /** Everything reachable is good and no path comes back to a node it visited. */
  ghost predicate Sound(index: Index, k: Key)
  {
    forall p :: Path(index, p) && p[0] == k ==> GoodNode(index, p[|p| - 1]) && Simple(p)
  }

  /** A reason to refuse: a path that reaches a bad node, revisits one, or is too deep. */
  ghost predicate BadPath(index: Index, k: Key, p: seq<Key>)
  {
    && Path(index, p) && p[0] == k
    && (!GoodNode(index, p[|p| - 1]) || !Simple(p) || |p| > MAX_DEPTH + 1)
  }

  // ---- finished groups, in the order the search left them --------------------------------

  ghost function Elems(s: seq<Key>): (r: set<Key>) { set k | k in s }

  /** Every group in the order is good and refers only to plain objects and earlier groups. */
  ghost predicate Closed(index: Index, order: seq<Key>)
  {
    && Simple(order)
    && forall i :: 0 <= i < |order| ==> ClosedAt(index, order, i)
  }

  ghost predicate ClosedAt(index: Index, order: seq<Key>, i: nat)
    requires i < |order|
  {
    && order[i].group && GoodNode(index, order[i])
    && forall b :: Edge(index, order[i], b) ==> b in index && (b.group ==> b in order[..i])
  }

  lemma ClosedAppend(index: Index, order: seq<Key>, k: Key)
    requires Closed(index, order) && k !in order && k.group && GoodNode(index, k)
    requires forall b :: Edge(index, k, b) ==> b in index && (b.group ==> b in order)
    ensures Closed(index, order + [k])
  {
    hide GoodNode, Edge;
    var all := order + [k];
    forall i | 0 <= i < |all|
      ensures ClosedAt(index, all, i)
    {
      if i < |order| {
        assert ClosedAt(index, order, i) && all[..i] == order[..i];
      } else {
        assert all[..i] == order;
      }
    }
  }

  /** A path from a finished group only ever meets plain objects and earlier groups. */
  lemma {:induction false} PathGoesDown(index: Index, order: seq<Key>, i: nat, p: seq<Key>)
    requires Closed(index, order) && i < |order| && Path(index, p) && p[0] == order[i]
    ensures GoodNode(index, p[|p| - 1]) && Simple(p)
    ensures forall j :: 1 <= j < |p| ==> !p[j].group || p[j] in order[..i]
    decreases i
  {
    hide GoodNode;
    assert ClosedAt(index, order, i);
    if |p| > 1 {
      var q := p[1..];
      assert Edge(index, p[0], p[1]);
      assert forall j :: 0 <= j < |q| - 1 ==> Edge(index, p[j + 1], p[j + 2]) && q[j] == p[j + 1];
      assert Path(index, q);
      if p[1].group {
        var i' :| 0 <= i' < i && order[i'] == p[1];
        PathGoesDown(index, order, i', q);
        forall j | 1 <= j < |p|
          ensures !p[j].group || p[j] in order[..i]
        {
          assert q[j - 1] == p[j];
          if j > 1 && p[j].group { assert p[j] in order[..i']; }
        }
        SimpleCons(index, order, i, p);
      } else {
        PlainIsGood(index, p[1]);
      }
    }
  }

  lemma PlainIsGood(index: Index, k: Key)
    requires k in index && !k.group
    ensures GoodNode(index, k)
  {
  }

  lemma SimpleCons(index: Index, order: seq<Key>, i: nat, p: seq<Key>)
    requires Simple(order) && i < |order| && |p| > 1 && p[0] == order[i] && p[0].group && Simple(p[1..])
    requires forall j :: 1 <= j < |p| ==> !p[j].group || p[j] in order[..i]
    ensures Simple(p)
  {
    assert p == [p[0]] + p[1..];
  }

  lemma FinishedIsSound(index: Index, order: seq<Key>, k: Key)
    requires Closed(index, order) && k in order
    ensures Sound(index, k)
  {
    var i :| 0 <= i < |order| && order[i] == k;
    forall p | Path(index, p) && p[0] == k
      ensures GoodNode(index, p[|p| - 1]) && Simple(p)
    {
      PathGoesDown(index, order, i, p);
    }
  }

  // ---- the search --------------------------------------------------------------------------

  /** The state of a search below the stack of open groups: the open groups are active, the
      finished ones visited. */
  ghost predicate Searching(index: Index, root: Key, stack: seq<Key>, current: Key, depth: nat,
                            active: set<Key>, visited: set<Key>, order: seq<Key>)
  {
    && current in index && depth == |stack| && active == Elems(stack)
    && Path(index, stack + [current]) && (stack + [current])[0] == root
    && visited == Elems(order) && Closed(index, order) && active !! visited
  }

  /** One call of the recursive visit. */
  method Visit(index: Index, current: Key, depth: nat, active: set<Key>, visited: set<Key>,
               ghost root: Key, ghost stack: seq<Key>, ghost order: seq<Key>)
    returns (ok: bool, visited': set<Key>, ghost order': seq<Key>)
    requires Searching(index, root, stack, current, depth, active, visited, order) && depth <= MAX_DEPTH + 1
    ensures !ok ==> exists p :: BadPath(index, root, p)
    ensures ok ==> visited' == Elems(order') && Closed(index, order') && active !! visited'
    ensures ok ==> Elems(order) <= Elems(order') && (current.group ==> current in order')
    decreases MAX_DEPTH + 1 - depth
  {
    hide GoodNode, Closed;
    visited', order' := visited, order;
    ghost var path := stack + [current];
    if depth > MAX_DEPTH {
      assert BadPath(index, root, path);
      return false, visited', order';
    }
    if current in active {
      RepeatedIsBad(index, root, stack, current);
      return false, visited', order';
    }
    if current in visited || !current.group {
      return true, visited', order';
    }
    if index[current].Dynamic? {
      DynamicIsBad(index, root, path);
      return false, visited', order';
    }
    ok, visited', order' := VisitMembers(index, current, depth, active + {current}, visited, root, path, order);
    if ok {
      FinishGroup(index, current, order');
      visited' := visited' + {current};
      order' := order' + [current];
    }
  }

  /** The loop over a group's members, the group itself being active. */
  method VisitMembers(index: Index, current: Key, depth: nat, active: set<Key>, visited: set<Key>,
                      ghost root: Key, ghost path: seq<Key>, ghost order: seq<Key>)
    returns (ok: bool, visited': set<Key>, ghost order': seq<Key>)
    requires current in index && current.group && !index[current].Dynamic?
    requires depth <= MAX_DEPTH && |path| == depth + 1 && Path(index, path) && path[0] == root
    requires path[depth] == current && active == Elems(path)
    requires visited == Elems(order) && Closed(index, order) && active !! visited
    ensures !ok ==> exists p :: BadPath(index, root, p)
    ensures ok ==> visited' == Elems(order') && Closed(index, order') && active !! visited'
    ensures ok ==> Elems(order) <= Elems(order') && current !in order' && MembersDone(index, current, order', |Members(index[current])|)
    decreases MAX_DEPTH + 1 - depth, 0
  {
    hide GoodNode, Closed;
    visited', order' := visited, order;
    for i := 0 to |Members(index[current])|
      invariant visited' == Elems(order') && Closed(index, order') && active !! visited'
      invariant Elems(order) <= Elems(order') && MembersDone(index, current, order', i)
    {
      var target := MemberTarget(index, current, i);
      if target.None? {
        UnresolvedIsBad(index, root, path, i);
        return false, visited', order';
      }
      EdgeExtends(index, path, i);
      ghost var before := order';
      ok, visited', order' := Visit(index, target.value, depth + 1, active, visited', root, path, order');
      if !ok { return; }
      DoneGrows(index, current, before, order', i);
    }
    ok := true;
    assert current in active;
  }

  /** The first n members resolve, groups among them being finished. */
  ghost predicate MembersDone(index: Index, k: Key, order: seq<Key>, n: nat)
    requires k in index && !index[k].Dynamic? && n <= |Members(index[k])|
  {
    forall i :: 0 <= i < n ==>
      var t := MemberTarget(index, k, i); t.Some? && t.value in index && (t.value.group ==> t.value in order)
  }

  lemma DoneGrows(index: Index, k: Key, order: seq<Key>, order': seq<Key>, i: nat)
    requires k in index && !index[k].Dynamic? && i < |Members(index[k])|
    requires MembersDone(index, k, order, i) && Elems(order) <= Elems(order')
    requires var t := MemberTarget(index, k, i); t.Some? && (t.value.group ==> t.value in order')
    ensures MembersDone(index, k, order', i + 1)
  {
    forall x | x in order
      ensures x in order'
    {
      assert x in Elems(order);
    }
  }

  lemma FinishGroup(index: Index, k: Key, order: seq<Key>)
    requires k in index && k.group && !index[k].Dynamic? && k !in order
    requires Closed(index, order) && MembersDone(index, k, order, |Members(index[k])|)
    ensures Closed(index, order + [k])
  {
    if index[k].Static? {
      forall i | 0 <= i < |index[k].members|
        ensures var t := Resolve(index, k.scope, index[k].members[i], k.family);
                t.Some? && (t.value.group ==> t.value in order)
      {
        assert MemberTarget(index, k, i).Some?;
      }
    }
    assert GoodNode(index, k);
    ClosedAppend(index, order, k);
  }

  lemma EdgeExtends(index: Index, path: seq<Key>, i: nat)
    requires Path(index, path)
    requires var k := path[|path| - 1];
             && k in index && k.group && !index[k].Dynamic? && i < |Members(index[k])|
             && MemberTarget(index, k, i).Some?
    ensures Path(index, path + [MemberTarget(index, path[|path| - 1], i).value])
  {
    var k := path[|path| - 1];
    var t := MemberTarget(index, k, i).value;
    assert Edge(index, k, t);
    var q := path + [t];
    forall j | 0 <= j < |q| - 1
      ensures Edge(index, q[j], q[j + 1])
    {
      if j < |path| - 1 { assert Edge(index, path[j], path[j + 1]); }
    }
  }

  lemma RepeatedIsBad(index: Index, root: Key, stack: seq<Key>, k: Key)
    requires Path(index, stack + [k]) && (stack + [k])[0] == root && k in stack
    ensures BadPath(index, root, stack + [k])
  {
    var i :| 0 <= i < |stack| && stack[i] == k;
    var p := stack + [k];
    assert p[i] == p[|stack|];
  }

  lemma DynamicIsBad(index: Index, root: Key, p: seq<Key>)
    requires Path(index, p) && p[0] == root
    requires var k := p[|p| - 1]; k.group && (k in index ==> index[k].Dynamic?)
    ensures BadPath(index, root, p)
  {
  }

  lemma UnresolvedIsBad(index: Index, root: Key, p: seq<Key>, i: nat)
    requires Path(index, p) && p[0] == root
    requires var k := p[|p| - 1];
             && k in index && k.group && !index[k].Dynamic? && i < |Members(index[k])|
             && MemberTarget(index, k, i).None?
    ensures BadPath(index, root, p)
  {
  }

  /** No path without repetition from k is over the depth limit. */
  ghost predicate Shallow(index: Index, k: Key)
  {
    forall p :: Path(index, p) && p[0] == k && Simple(p) ==> |p| <= MAX_DEPTH + 1
  }

  /** A reason to refuse a shallow group makes it unsound. */
  lemma RefusedMeansUnsound(index: Index, k: Key, p: seq<Key>)
    requires BadPath(index, k, p) && Shallow(index, k)
    ensures !Sound(index, k)
  {
  }

  /** Accepting means every reachable member resolves, every reachable group is static and no
      cycle is reachable; refusing means there is a path that breaks this or is over 64 deep. On
      graphs within the limit the check is exact. */
  method ValidateGroup(index: Index, k: Key) returns (ok: bool)
    requires k in index && k.group
    ensures ok ==> Sound(index, k)
    ensures !ok ==> exists p :: BadPath(index, k, p)
    ensures Shallow(index, k) ==> (ok <==> Sound(index, k))
  {
    ghost var order;
    assert [] + [k] == [k];
    var visited;
    ok, visited, order := Visit(index, k, 0, {}, {}, k, [], []);
    if ok {
      FinishedIsSound(index, order, k);
    } else {
      ghost var p :| BadPath(index, k, p);
      if Shallow(index, k) { RefusedMeansUnsound(index, k, p); }
    }
  }

  // ---- editing the candidate -----------------------------------------------------------------

  datatype Edit = Put(key: Key, entry: Entry, create: bool) | Delete(key: Key)

  /** What the editor learns outside the object index: whether another administrator holds the
      lock or the revision moved, whether the entry may be edited, whether references to a
      deleted object remain, and whether the lock can be taken. */
  datatype Context = Context(lockedByOther: bool, sameRevision: bool, editable: bool, referenced: bool, lockable: bool)

  datatype Verdict = Saved(index: Index) | Locked | Stale | Duplicate | NotFound | NotEditable | Referenced | BadGroup

  function Apply(index: Index, e: Edit): (r: Index)
  {
    match e
    case Put(k, entry, _) => index[k := entry]
    case Delete(k) => index - {k}
  }

  predicate NameTaken(index: Index, k: Key) { k.(group := false) in index || k.(group := true) in index }

  /** The refusal an edit meets before the object tree is touched. */
  function Precheck(index: Index, e: Edit, c: Context): (v: Option<Verdict>)
  {
    if c.lockedByOther then Some(Locked)
    else if !c.sameRevision then Some(Stale)
    else if e.Put? && e.create then (if NameTaken(index, e.key) then Some(Duplicate) else None)
    else if e.key !in index then Some(NotFound)
    else if !c.editable then Some(NotEditable)
    else if e.Delete? && c.referenced then Some(Referenced)
    else None
  }

  /** An edit changes its own key and nothing else. */
  lemma ApplyMeans(index: Index, e: Edit, k: Key)
    ensures k != e.key ==> (k in Apply(index, e) <==> k in index) && (k in index ==> Apply(index, e)[k] == index[k])
    ensures e.Put? ==> e.key in Apply(index, e) && Apply(index, e)[e.key] == e.entry
    ensures e.Delete? ==> e.key !in Apply(index, e)
  {
  }

  /** The edit gets past the lock and the revision. */
  predicate MayLook(c: Context) { !c.lockedByOther && c.sameRevision }

  /** Which refusal an edit meets first: the lock, then the revision; a creation only an object
      or group of that name in that scope; any other edit a missing entry, then one the editor
      cannot handle, and a deletion the references that remain. */
  lemma PrecheckMeans(index: Index, e: Edit, c: Context)
    ensures var v, creates := Precheck(index, e, c), e.Put? && e.create;
            && (v == Some(Locked) <==> c.lockedByOther)
            && (v == Some(Stale) <==> !c.lockedByOther && !c.sameRevision)
            && (v == Some(Duplicate) <==>
                  && MayLook(c) && creates
                  && exists k :: k in index && k.scope == e.key.scope && k.family == e.key.family && k.name == e.key.name)
            && (v == Some(NotFound) <==> MayLook(c) && !creates && e.key !in index)
            && (v == Some(NotEditable) <==> MayLook(c) && !creates && e.key in index && !c.editable)
            && (v == Some(Referenced) <==> MayLook(c) && e.Delete? && e.key in index && c.editable && c.referenced)
            && (v.Some? ==> v.value in {Locked, Stale, Duplicate, NotFound, NotEditable, Referenced})
  {
    forall k | k in index && k.scope == e.key.scope && k.family == e.key.family && k.name == e.key.name
      ensures NameTaken(index, e.key)
    {
      assert k == e.key.(group := k.group);
    }
  }

  /** A static group of the edited family. */
  predicate Swept(index: Index, family: string, k: Key)
  {
    k in index && k.group && k.family == family && !index[k].Dynamic?
  }

  /** Every candidate saved has only sound static groups in the edited family, even where the
      edit makes a local name shadow a shared one; a candidate whose groups are sound and no
      deeper than the limit is never refused for its groups. */
  method Mutate(index: Index, e: Edit, c: Context) returns (v: Verdict)
    ensures v.Saved? ==>
              && Precheck(index, e, c).None? && c.lockable && v.index == Apply(index, e)
              && forall k :: k in v.index && k.group && k.family == e.key.family && !v.index[k].Dynamic? ==> Sound(v.index, k)
    ensures Precheck(index, e, c).Some? ==> v == Precheck(index, e, c).value
    ensures v.BadGroup? ==>
              var next := Apply(index, e);
              exists k, p :: && k in next && k.group && k.family == e.key.family && !next[k].Dynamic?
                             && BadPath(next, k, p) && !(Sound(next, k) && Shallow(next, k))
    ensures Precheck(index, e, c).None? && !v.Saved? && !v.BadGroup? ==> v.Locked? && !c.lockable
  {
    hide Sound, BadPath, Shallow, Resolve;
    var pre := Precheck(index, e, c);
    if pre.Some? { return pre.value; }
    var next := Apply(index, e);
    if e.Put? && e.key.group && !e.entry.Dynamic? {
      var ok := ValidateGroup(next, e.key);
      if !ok {
        assert Swept(next, e.key.family, e.key);
        return BadGroup;
      }
    }
    var todo := next.Keys;
    while todo != {}
      invariant todo <= next.Keys
      invariant forall k :: Swept(next, e.key.family, k) && k !in todo ==> Sound(next, k)
    {
      var k :| k in todo;
      if Swept(next, e.key.family, k) {
        var ok := ValidateGroup(next, k);
        if !ok { return BadGroup; }
      }
      todo := todo - {k};
    }
    if !c.lockable { return Locked; }
    return Saved(next);
  }
}
