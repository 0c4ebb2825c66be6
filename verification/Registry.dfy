/** The tunnel registry (`internal/registry`): tunnels, the pool of one host key, and the two
    indices of the registry, one by host key and one by session. */
module Registry {
  import opened GoStrings

  class Session {
    const id: string
    var closed: bool

    constructor (id: string)
      ensures this.id == id && !closed
    {
      this.id, closed := id, false;
    }
  }

  class Yamux {
    var closed: bool

    constructor ()
      ensures !closed
    {
      closed := false;
    }
  }

  class ClientTunnel {
    const id: string
    const subdomain: string
    const session: Session?
    const yamux: Yamux?

    var localHealthy: bool
    var draining: bool
    var closed: bool
    var activeStreams: int

    constructor (id: string, subdomain: string, session: Session?, yamux: Yamux?)
      ensures this.id == id && this.subdomain == subdomain && this.session == session && this.yamux == yamux
      ensures !localHealthy && !draining && !closed && activeStreams == 0
    {
      this.id, this.subdomain, this.session, this.yamux := id, subdomain, session, yamux;
      localHealthy, draining, closed, activeStreams := false, false, false, 0;
    }

    predicate Alive()
      reads this, session, yamux
    {
      yamux != null && !yamux.closed && session != null && !session.closed
    }

    method Close()
      modifies this`closed, yamux, session
      ensures closed && !Alive()
      ensures yamux != null ==> yamux.closed
      ensures session != null ==> session.closed
    {
      closed := true;
      if yamux != null {
        yamux.closed := true;
      }
      if session != null {
        session.closed := true;
      }
    }
  }

  datatype PoolError = PoolFull

  // ---- Member lists: what the loops of the pool compute

  /** The position of the first member with the given client ID, or the length of the list. */
  function IndexOf(ms: seq<ClientTunnel>, id: string): (i: nat)
    ensures i <= |ms|
    ensures i < |ms| ==> ms[i].id == id
  {
    if ms == [] || ms[0].id == id then 0 else 1 + IndexOf(ms[1..], id)
  }

  lemma {:induction false} NoneBefore(ms: seq<ClientTunnel>, id: string)
    ensures forall j :: 0 <= j < IndexOf(ms, id) ==> ms[j].id != id
  {
    if ms != [] && ms[0].id != id {
      NoneBefore(ms[1..], id);
      assert forall j :: 0 < j < |ms| ==> ms[j] == ms[1..][j - 1];
    }
  }

  lemma IndexOfIs(ms: seq<ClientTunnel>, id: string, i: nat)
    requires i <= |ms| && (i < |ms| ==> ms[i].id == id)
    requires forall j :: 0 <= j < i ==> ms[j].id != id
    ensures IndexOf(ms, id) == i
  {
    NoneBefore(ms, id);
  }

  predicate HasId(ms: seq<ClientTunnel>, id: string) {
    IndexOf(ms, id) < |ms|
  }

  ghost predicate DistinctIds(ms: seq<ClientTunnel>) {
    forall i, j :: 0 <= i < j < |ms| ==> ms[i].id != ms[j].id
  }

  function Put(ms: seq<ClientTunnel>, t: ClientTunnel): seq<ClientTunnel> {
    var i := IndexOf(ms, t.id);
    if i < |ms| then ms[i := t] else ms + [t]
  }

  function Delete(ms: seq<ClientTunnel>, id: string): seq<ClientTunnel> {
    var i := IndexOf(ms, id);
    if i < |ms| then ms[..i] + ms[i + 1..] else ms
  }

  lemma IndexOfUnique(ms: seq<ClientTunnel>, i: nat)
    requires DistinctIds(ms) && i < |ms|
    ensures IndexOf(ms, ms[i].id) == i
  {
    NoneBefore(ms, ms[i].id);
  }

  // ---- The reference: a map that remembers the order in which its keys arrived

  datatype OrderedMap = OrderedMap(keys: seq<string>, at: map<string, ClientTunnel>) {

    function Insert(k: string, v: ClientTunnel): OrderedMap {
      OrderedMap(if k in at then keys else keys + [k], at[k := v])
    }

    function Remove(k: string): OrderedMap {
      OrderedMap(Without(keys, k), at - {k})
    }
  }

  function Without(keys: seq<string>, k: string): seq<string> {
    if keys == [] then []
    else if keys[0] == k then Without(keys[1..], k)
    else [keys[0]] + Without(keys[1..], k)
  }

  function Ids(ms: seq<ClientTunnel>): seq<string> {
    if ms == [] then [] else [ms[0].id] + Ids(ms[1..])
  }

  function ById(ms: seq<ClientTunnel>): map<string, ClientTunnel> {
    if ms == [] then map[] else ById(ms[1..])[ms[0].id := ms[0]]
  }

  function View(ms: seq<ClientTunnel>): OrderedMap {
    OrderedMap(Ids(ms), ById(ms))
  }

  lemma {:induction false} WithoutAbsent(keys: seq<string>, k: string)
    requires k !in keys
    ensures Without(keys, k) == keys
  {
    if keys != [] {
      WithoutAbsent(keys[1..], k);
    }
  }

  lemma {:induction false} PresentIds(ms: seq<ClientTunnel>, id: string)
    ensures HasId(ms, id) <==> id in Ids(ms)
    ensures HasId(ms, id) <==> id in ById(ms)
  {
    if ms != [] {
      PresentIds(ms[1..], id);
    }
  }

  lemma PutStep(ms: seq<ClientTunnel>, t: ClientTunnel)
    ensures Put(ms, t) ==
      if ms == [] then [t]
      else if ms[0].id == t.id then [t] + ms[1..]
      else [ms[0]] + Put(ms[1..], t)
  {}

  lemma DeleteStep(ms: seq<ClientTunnel>, id: string)
    ensures Delete(ms, id) ==
      if ms == [] then []
      else if ms[0].id == id then ms[1..]
      else [ms[0]] + Delete(ms[1..], id)
  {}

  lemma PutKeepsDistinct(ms: seq<ClientTunnel>, t: ClientTunnel)
    requires DistinctIds(ms)
    ensures DistinctIds(Put(ms, t))
  {
    NoneBefore(ms, t.id);
  }

  lemma DeleteKeepsDistinct(ms: seq<ClientTunnel>, id: string)
    requires DistinctIds(ms)
    ensures DistinctIds(Delete(ms, id))
  {}

  /** Adding a tunnel refines insertion: a known client keeps its place in the order. */
  lemma PutRefinesInsert(ms: seq<ClientTunnel>, t: ClientTunnel)
    ensures View(Put(ms, t)) == View(ms).Insert(t.id, t)
  {
    PutInsertsId(ms, t);
    PutInsertsEntry(ms, t);
    PresentIds(ms, t.id);
  }

  lemma {:induction false} PutInsertsId(ms: seq<ClientTunnel>, t: ClientTunnel)
    ensures Ids(Put(ms, t)) == if HasId(ms, t.id) then Ids(ms) else Ids(ms) + [t.id]
  {
    PutStep(ms, t);
    if ms == [] {
      assert [t][1..] == [];
    } else if ms[0].id == t.id {
      assert ([t] + ms[1..])[1..] == ms[1..];
    } else {
      PutInsertsId(ms[1..], t);
      assert ([ms[0]] + Put(ms[1..], t))[1..] == Put(ms[1..], t);
    }
  }

  lemma {:induction false} PutInsertsEntry(ms: seq<ClientTunnel>, t: ClientTunnel)
    ensures ById(Put(ms, t)) == ById(ms)[t.id := t]
  {
    PutStep(ms, t);
    if ms == [] {
      assert [t][1..] == [];
    } else if ms[0].id == t.id {
      assert ([t] + ms[1..])[1..] == ms[1..];
    } else {
      PutInsertsEntry(ms[1..], t);
      assert ([ms[0]] + Put(ms[1..], t))[1..] == Put(ms[1..], t);
    }
  }

  /** Removing a client refines removal: everyone else keeps their order. */
  lemma DeleteRefinesRemove(ms: seq<ClientTunnel>, id: string)
    requires DistinctIds(ms)
    ensures View(Delete(ms, id)) == View(ms).Remove(id)
  {
    DeleteRemovesId(ms, id);
    DeleteRemovesEntry(ms, id);
  }

  lemma HeadIdOnce(ms: seq<ClientTunnel>)
    requires DistinctIds(ms) && ms != []
    ensures DistinctIds(ms[1..]) && !HasId(ms[1..], ms[0].id)
  {
    assert forall j :: 0 <= j < |ms[1..]| ==> ms[1..][j] == ms[j + 1];
  }

  lemma {:induction false} DeleteRemovesId(ms: seq<ClientTunnel>, id: string)
    requires DistinctIds(ms)
    ensures Ids(Delete(ms, id)) == Without(Ids(ms), id)
  {
    DeleteStep(ms, id);
    if ms != [] {
      var rest := ms[1..];
      HeadIdOnce(ms);
      if ms[0].id == id {
        PresentIds(rest, id);
        WithoutAbsent(Ids(rest), id);
      } else {
        DeleteRemovesId(rest, id);
        assert Delete(ms, id)[1..] == Delete(rest, id);
      }
    }
  }

  lemma {:induction false} DeleteRemovesEntry(ms: seq<ClientTunnel>, id: string)
    requires DistinctIds(ms)
    ensures ById(Delete(ms, id)) == ById(ms) - {id}
  {
    DeleteStep(ms, id);
    if ms != [] {
      var rest := ms[1..];
      HeadIdOnce(ms);
      if ms[0].id == id {
        PresentIds(rest, id);
      } else {
        DeleteRemovesEntry(rest, id);
        assert Delete(ms, id)[1..] == Delete(rest, id);
      }
    }
  }

  // ---- The two indices

  datatype Hole = NoHole | Hole(subdomain: string, id: string)

  ghost predicate PoolsOk(pools: map<string, seq<ClientTunnel>>) {
    forall k :: k in pools ==> DistinctIds(pools[k]) && forall m :: m in pools[k] ==> m.subdomain == k
  }

  ghost predicate Member(pools: map<string, seq<ClientTunnel>>, t: ClientTunnel) {
    t.subdomain in pools && t in pools[t.subdomain]
  }

  ghost predicate Listed(sess: map<string, ClientTunnel>, t: ClientTunnel) {
    t.session != null && t.session.id in sess && sess[t.session.id] == t
  }

  /** The session index holds exactly the pool members, each under its own session; at most the
      member of one client ID, the hole, may be missing from it. */
  ghost predicate Agree(pools: map<string, seq<ClientTunnel>>, sess: map<string, ClientTunnel>, hole: Hole) {
    && PoolsOk(pools)
    && (forall s :: s in sess ==> Member(pools, sess[s]) && sess[s].session != null && sess[s].session.id == s)
    && (forall k, m :: k in pools && m in pools[k] && m.session != null ==>
          if hole == Hole(k, m.id) then m.session.id !in sess else Listed(sess, m))
  }

  /** Whenever nothing is missing, a session maps to a tunnel if and only if that tunnel is a
      member of its host's pool and carries that session. */
  lemma AgreeMeansExact(pools: map<string, seq<ClientTunnel>>, sess: map<string, ClientTunnel>,
                        s: string, t: ClientTunnel)
    requires Agree(pools, sess, NoHole)
    ensures (s in sess && sess[s] == t) <==> (Member(pools, t) && t.session != null && t.session.id == s)
  {
    if Member(pools, t) && t.session != null && t.session.id == s {
      assert Listed(sess, t);
    }
  }

  /** The session index once the entry of the client's previous tunnel is deleted. */
  function DropPrevious(ms: seq<ClientTunnel>, id: string, sess: map<string, ClientTunnel>): map<string, ClientTunnel> {
    var i := IndexOf(ms, id);
    if i < |ms| && ms[i].session != null then sess - {ms[i].session.id} else sess
  }

  function Index(sess: map<string, ClientTunnel>, t: ClientTunnel): map<string, ClientTunnel> {
    if t.session != null then sess[t.session.id := t] else sess
  }

  lemma NewPoolAgrees(pools: map<string, seq<ClientTunnel>>, sess: map<string, ClientTunnel>, k: string)
    requires Agree(pools, sess, NoHole) && k !in pools
    ensures Agree(pools[k := []], sess, NoHole)
  {}

  lemma DropAgrees(pools: map<string, seq<ClientTunnel>>, sess: map<string, ClientTunnel>, sub: string, id: string)
    requires Agree(pools, sess, NoHole) && sub in pools
    ensures Agree(pools, DropPrevious(pools[sub], id, sess), Hole(sub, id))
  {
    var ms, i := pools[sub], IndexOf(pools[sub], id);
    var sess' := DropPrevious(ms, id, sess);
    forall k, m | k in pools && m in pools[k] && m.session != null
      ensures if Hole(sub, id) == Hole(k, m.id) then m.session.id !in sess' else Listed(sess', m)
    {
      assert Listed(sess, m);
      if k == sub && m.id == id {
        var j :| 0 <= j < |ms| && ms[j] == m;
        IndexOfUnique(ms, j);
      } else if i < |ms| {
        assert ms[i] in ms;
        assert m != ms[i];
      }
    }
  }

  lemma AddAgrees(pools: map<string, seq<ClientTunnel>>, sess: map<string, ClientTunnel>, t: ClientTunnel)
    requires Agree(pools, sess, Hole(t.subdomain, t.id)) && t.subdomain in pools
    requires t.session != null ==> t.session.id !in sess
    ensures Agree(pools[t.subdomain := Put(pools[t.subdomain], t)], sess, Hole(t.subdomain, t.id))
  {
    var sub, ms := t.subdomain, pools[t.subdomain];
    var ps := Put(ms, t);
    PutKeepsDistinct(ms, t);
    PutMembers(ms, t);
    forall s | s in sess ensures Member(pools[sub := ps], sess[s]) {
      assert Member(pools, sess[s]);
    }
  }

  lemma PutMembers(ms: seq<ClientTunnel>, t: ClientTunnel)
    requires DistinctIds(ms)
    ensures forall m :: m in Put(ms, t) <==> m == t || (m in ms && m.id != t.id)
  {
    var i, ps := IndexOf(ms, t.id), Put(ms, t);
    NoneBefore(ms, t.id);
    forall m | m in ms && m.id != t.id ensures m in ps {
      var j :| 0 <= j < |ms| && ms[j] == m;
      assert ps[j] == m;
    }
    assert ps[if i < |ms| then i else |ms|] == t;
    forall m | m in ps && m != t ensures m in ms && m.id != t.id {
      var j :| 0 <= j < |ps| && ps[j] == m;
      assert ms[j] == m;
    }
  }

  lemma DeleteMembers(ms: seq<ClientTunnel>, id: string)
    requires DistinctIds(ms)
    ensures forall m :: m in Delete(ms, id) <==> m in ms && m.id != id
  {
    var i, ds := IndexOf(ms, id), Delete(ms, id);
    NoneBefore(ms, id);
    forall m | m in ms && m.id != id ensures m in ds {
      var j :| 0 <= j < |ms| && ms[j] == m;
      if i < |ms| { assert ds[if j < i then j else j - 1] == m; }
    }
    forall m | m in ds ensures m in ms && m.id != id {
      var j :| 0 <= j < |ds| && ds[j] == m;
      if i < |ms| { assert ms[if j < i then j else j + 1] == m; }
    }
  }

  lemma IndexAgrees(pools: map<string, seq<ClientTunnel>>, sess: map<string, ClientTunnel>, t: ClientTunnel)
    requires Agree(pools, sess, Hole(t.subdomain, t.id)) && Member(pools, t)
    requires t.session != null ==> t.session.id !in sess
    ensures Agree(pools, Index(sess, t), NoHole)
  {
    forall k, m | k in pools && m in pools[k] && m.session != null ensures Listed(Index(sess, t), m) {
      if k == t.subdomain && m.id == t.id {
        SameIdSameMember(pools[k], m, t);
      } else {
        assert Listed(sess, m);
      }
    }
  }

  /** A registration takes exact indices to exact indices. */
  lemma RegisterAgrees(pools: map<string, seq<ClientTunnel>>, sess: map<string, ClientTunnel>, t: ClientTunnel)
    requires Agree(pools, sess, NoHole) && t.subdomain in pools
    requires t.session != null ==> t.session.id !in sess
    ensures Agree(pools[t.subdomain := Put(pools[t.subdomain], t)],
                  Index(DropPrevious(pools[t.subdomain], t.id, sess), t), NoHole)
  {
    var dropped := DropPrevious(pools[t.subdomain], t.id, sess);
    DropAgrees(pools, sess, t.subdomain, t.id);
    AddAgrees(pools, dropped, t);
    PutMembers(pools[t.subdomain], t);
    IndexAgrees(pools[t.subdomain := Put(pools[t.subdomain], t)], dropped, t);
  }

  /** Removing by session keeps the indices exact, although the pool deletes by client ID. */
  lemma RemoveAgrees(pools: map<string, seq<ClientTunnel>>, sess: map<string, ClientTunnel>, s: string)
    requires Agree(pools, sess, NoHole) && s in sess
    ensures Member(pools, sess[s])
    ensures Agree(pools[sess[s].subdomain := Delete(pools[sess[s].subdomain], sess[s].id)], sess - {s}, NoHole)
  {
    var t := sess[s];
    UnindexAgrees(pools, sess, s);
    DeleteAgrees(pools, sess - {s}, t.subdomain, t.id);
  }

  /** Register on the two indices, created pool included, whether or not the pool was full. */
  lemma RegistrationAgrees(pools: map<string, seq<ClientTunnel>>, sess: map<string, ClientTunnel>, t: ClientTunnel)
    requires Agree(pools, sess, NoHole)
    requires t.session != null ==> t.session.id !in sess
    ensures var ms := if t.subdomain in pools then pools[t.subdomain] else [];
      && Agree(pools[t.subdomain := ms], sess, NoHole)
      && Agree(pools[t.subdomain := Put(ms, t)], Index(DropPrevious(ms, t.id, sess), t), NoHole)
  {
    var ms := if t.subdomain in pools then pools[t.subdomain] else [];
    var p := pools[t.subdomain := ms];
    if t.subdomain !in pools {
      NewPoolAgrees(pools, sess, t.subdomain);
    } else {
      assert p == pools;
    }
    RegisterAgrees(p, sess, t);
    UpdateTwice(pools, t.subdomain, ms, Put(ms, t));
  }

  lemma UpdateTwice<K, V>(m: map<K, V>, k: K, a: V, b: V)
    ensures m[k := a][k := b] == m[k := b]
  {}

  lemma SameIdSameMember(ms: seq<ClientTunnel>, a: ClientTunnel, b: ClientTunnel)
    requires DistinctIds(ms) && a in ms && b in ms && a.id == b.id
    ensures a == b
  {
    var i :| 0 <= i < |ms| && ms[i] == a;
    var j :| 0 <= j < |ms| && ms[j] == b;
    IndexOfUnique(ms, i);
    IndexOfUnique(ms, j);
  }

  lemma NothingMissing(pools: map<string, seq<ClientTunnel>>, sess: map<string, ClientTunnel>, sub: string, id: string)
    requires Agree(pools, sess, Hole(sub, id)) && sub in pools && !HasId(pools[sub], id)
    ensures Agree(pools, sess, NoHole)
  {
    NoneBefore(pools[sub], id);
  }

  lemma UnindexAgrees(pools: map<string, seq<ClientTunnel>>, sess: map<string, ClientTunnel>, s: string)
    requires Agree(pools, sess, NoHole) && s in sess
    ensures Agree(pools, sess - {s}, Hole(sess[s].subdomain, sess[s].id))
  {
    var t := sess[s];
    forall k, m | k in pools && m in pools[k] && m.session != null
      ensures if Hole(t.subdomain, t.id) == Hole(k, m.id) then m.session.id !in sess - {s} else Listed(sess - {s}, m)
    {
      assert Listed(sess, m);
      if k == t.subdomain && m.id == t.id {
        SameIdSameMember(pools[k], m, t);
      }
    }
  }

  lemma DeleteAgrees(pools: map<string, seq<ClientTunnel>>, sess: map<string, ClientTunnel>, sub: string, id: string)
    requires Agree(pools, sess, Hole(sub, id)) && sub in pools
    ensures Agree(pools[sub := Delete(pools[sub], id)], sess, NoHole)
  {
    DeleteKeepsDistinct(pools[sub], id);
    DeleteMembers(pools[sub], id);
    forall s | s in sess ensures Member(pools[sub := Delete(pools[sub], id)], sess[s]) {
      assert Member(pools, sess[s]);
    }
  }

  // ---- TunnelPool

  class TunnelPool {
    var members: seq<ClientTunnel>
    /** The tunnels for which a drain worker was started, in order. */
    ghost var drains: seq<ClientTunnel>
    /** The host key the pool was created for. */
    ghost const name: string

    constructor (ghost name: string)
      ensures members == [] && drains == [] && this.name == name
    {
      members, drains := [], [];
      this.name := name;
    }

    ghost predicate Valid()
      reads `members
    {
      DistinctIds(members)
    }

    /** The member that a tunnel with this client ID would replace. */
    ghost function Superseded(id: string): set<ClientTunnel>
      reads `members
    {
      if HasId(members, id) then {members[IndexOf(members, id)]} else {}
    }

    method Add(t: ClientTunnel, max: int) returns (err: Option<PoolError>)
      requires Valid()
      modifies this, Superseded(t.id)`draining
      ensures Valid()
      ensures err.Some? <==> old(!HasId(members, t.id)) && |old(members)| >= max
      ensures members == if err.None? then Put(old(members), t) else old(members)
      ensures forall m :: m in old(Superseded(t.id)) ==> m.draining
      ensures drains == old(drains) +
        if old(HasId(members, t.id)) then [old(members[IndexOf(members, t.id)])] else []
    {
      PutKeepsDistinct(members, t);
      for i := 0 to |members|
        invariant members == old(members) && drains == old(drains)
        invariant forall j :: 0 <= j < i ==> members[j].id != t.id
      {
        if members[i].id == t.id {
          var superseded := members[i];
          IndexOfIs(members, t.id, i);
          members := members[i := t];
          BeginSupersedeDrain(superseded);
          return None;
        }
      }
      IndexOfIs(members, t.id, |members|);
      if |members| >= max {
        return Some(PoolFull);
      }
      members := members + [t];
      return None;
    }

    /** Marks the tunnel and starts its worker, which `Drain.DrainWorker` models. */
    method BeginSupersedeDrain(superseded: ClientTunnel)
      modifies this`drains, superseded`draining
      ensures superseded.draining && drains == old(drains) + [superseded]
    {
      superseded.draining := true;
      drains := drains + [superseded];
    }

    method Remove(id: string)
      requires Valid()
      modifies this`members
      ensures Valid()
      ensures members == Delete(old(members), id)
    {
      DeleteKeepsDistinct(members, id);
      for i := 0 to |members|
        invariant members == old(members)
        invariant forall j :: 0 <= j < i ==> members[j].id != id
      {
        if members[i].id == id {
          IndexOfIs(members, id, i);
          members := members[..i] + members[i + 1..];
          return;
        }
      }
      IndexOfIs(members, id, |members|);
    }

    method FindById(id: string) returns (t: ClientTunnel?)
      ensures t == if HasId(members, id) then members[IndexOf(members, id)] else null
    {
      for i := 0 to |members|
        invariant forall j :: 0 <= j < i ==> members[j].id != id
      {
        if members[i].id == id {
          IndexOfIs(members, id, i);
          return members[i];
        }
      }
      IndexOfIs(members, id, |members|);
      return null;
    }

    /** The balancer of the pool: the first member that can serve. */
    method Pick() returns (t: ClientTunnel?)
      ensures t == null ==> forall m :: m in members ==> !Available(m)
      ensures t != null ==> Available(t) && FirstWith(members, t)
    {
      for i := 0 to |members|
        invariant forall j :: 0 <= j < i ==> !Available(members[j])
      {
        var m := members[i];
        if m.Alive() && m.localHealthy && !m.draining {
          assert FirstAt(members, i);
          return m;
        }
      }
      return null;
    }
  }

  ghost predicate FirstAt(ms: seq<ClientTunnel>, i: int)
    reads ms, set m | m in ms :: m.session, set m | m in ms :: m.yamux
  {
    0 <= i < |ms| && forall j :: 0 <= j < i ==> !Available(ms[j])
  }

  /** Everyone registered before t is unavailable. */
  ghost predicate FirstWith(ms: seq<ClientTunnel>, t: ClientTunnel)
    reads ms, set m | m in ms :: m.session, set m | m in ms :: m.yamux
  {
    exists i :: FirstAt(ms, i) && ms[i] == t
  }

  predicate Available(t: ClientTunnel)
    reads t, t.session, t.yamux
  {
    && t.yamux != null && !t.yamux.closed && t.session != null && !t.session.closed
    && t.localHealthy && !t.draining
  }

  // ---- Registry

  class Registry {
    var byName: map<string, TunnelPool>
    var bySess: map<string, ClientTunnel>
    /** The members of every pool, as one value. */
    ghost var pools: map<string, seq<ClientTunnel>>
    ghost var objects: set<TunnelPool>

    constructor ()
      ensures Valid() && byName == map[] && bySess == map[]
    {
      byName, bySess, pools, objects := map[], map[], map[], {};
    }

    /** Each pool is the pool of its key and holds the members that `pools` says it holds. */
    ghost predicate Coupled()
      reads `byName, `pools, `objects, objects`members
    {
      && pools.Keys == byName.Keys
      && forall k :: k in byName ==>
           byName[k] in objects && byName[k].name == k && byName[k].members == pools[k]
    }

    ghost predicate Valid()
      reads this, objects
    {
      Coupled() && Agree(pools, bySess, NoHole)
    }

    ghost function PoolOf(sub: string): seq<ClientTunnel>
      reads `pools
    {
      if sub in pools then pools[sub] else []
    }

    ghost function OwnPool(sub: string): set<TunnelPool>
      reads `byName
    {
      if sub in byName then {byName[sub]} else {}
    }

    /** The member of one client ID in one pool, if there is one. */
    ghost function MemberOf(sub: string, id: string): set<ClientTunnel>
      reads `pools
    {
      if HasId(PoolOf(sub), id) then {PoolOf(sub)[IndexOf(PoolOf(sub), id)]} else {}
    }

    /** Pools are created once and never replaced. */
    twostate predicate KeepsPools()
      reads `byName
    {
      forall k :: k in old(byName) ==> k in byName && byName[k] == old(byName[k])
    }

    method EnsurePool(sub: string) returns (pool: TunnelPool)
      requires Valid()
      modifies `byName, `pools, `objects
      ensures Valid() && KeepsPools()
      ensures sub in byName && byName[sub] == pool && byName.Keys == old(byName.Keys) + {sub}
      ensures pools == old(pools)[sub := old(PoolOf(sub))]
    {
      pool := FindOrCreate(sub);
      if sub !in old(pools) {
        NewPoolAgrees(old(pools), bySess, sub);
      }
    }

    method FindOrCreate(sub: string) returns (pool: TunnelPool)
      requires Coupled()
      modifies `byName, `pools, `objects
      ensures Coupled() && KeepsPools()
      ensures sub in byName && byName[sub] == pool && byName.Keys == old(byName.Keys) + {sub}
      ensures sub !in old(byName) ==> fresh(pool)
      ensures pools == old(pools)[sub := old(PoolOf(sub))]
    {
      if sub in byName {
        return byName[sub];
      }
      pool := new TunnelPool(sub);
      byName, pools, objects := byName[sub := pool], pools[sub := []], objects + {pool};
    }

    /** The step of Register that changes a pool, under the lock of that pool. */
    method AddToPool(t: ClientTunnel, max: int) returns (err: Option<PoolError>)
      requires Coupled() && PoolsOk(pools) && t.subdomain in byName
      modifies this`pools, OwnPool(t.subdomain), MemberOf(t.subdomain, t.id)`draining
      ensures Coupled()
      ensures err.Some? <==> old(!HasId(pools[t.subdomain], t.id)) && |old(pools[t.subdomain])| >= max
      ensures pools == old(pools)[t.subdomain :=
        if err.None? then Put(old(pools[t.subdomain]), t) else old(pools[t.subdomain])]
      ensures forall m :: m in old(MemberOf(t.subdomain, t.id)) ==> m.draining
    {
      err := byName[t.subdomain].Add(t, max);
      if err.None? {
        pools := pools[t.subdomain := Put(pools[t.subdomain], t)];
      }
    }

    method Register(t: ClientTunnel, max: int) returns (err: Option<PoolError>)
      requires Valid()
      // pollmux hands out fresh session IDs and onConnect allocates a new tunnel for each
      requires t.session != null ==> t.session.id !in bySess
      modifies this, OwnPool(t.subdomain), MemberOf(t.subdomain, t.id)`draining, t`localHealthy
      ensures Valid() && KeepsPools()
      ensures err.Some? <==> old(!HasId(PoolOf(t.subdomain), t.id)) && |old(PoolOf(t.subdomain))| >= max
      ensures pools == old(pools)[t.subdomain :=
        if err.None? then Put(old(PoolOf(t.subdomain)), t) else old(PoolOf(t.subdomain))]
      ensures bySess ==
        if err.None? then Index(DropPrevious(old(PoolOf(t.subdomain)), t.id, old(bySess)), t) else old(bySess)
      ensures forall m :: m in old(MemberOf(t.subdomain, t.id)) ==> m.draining
      ensures t.localHealthy == (err.None? || old(t.localHealthy))
    {
      RegistrationAgrees(pools, bySess, t);
      err := RegisterTunnel(t, max);
    }

    /** Register on the state alone: find the pool, then register in it. */
    method RegisterTunnel(t: ClientTunnel, max: int) returns (err: Option<PoolError>)
      requires Coupled() && PoolsOk(pools)
      modifies this, OwnPool(t.subdomain), MemberOf(t.subdomain, t.id)`draining, t`localHealthy
      ensures Coupled() && KeepsPools()
      ensures err.Some? <==> old(!HasId(PoolOf(t.subdomain), t.id)) && |old(PoolOf(t.subdomain))| >= max
      ensures pools == old(pools)[t.subdomain :=
        if err.None? then Put(old(PoolOf(t.subdomain)), t) else old(PoolOf(t.subdomain))]
      ensures bySess ==
        if err.None? then Index(DropPrevious(old(PoolOf(t.subdomain)), t.id, old(bySess)), t) else old(bySess)
      ensures forall m :: m in old(MemberOf(t.subdomain, t.id)) ==> m.draining
      ensures t.localHealthy == (err.None? || old(t.localHealthy))
    {
      var pool := FindOrCreate(t.subdomain);
      ghost var ms := pools[t.subdomain];
      UpdateTwice(old(pools), t.subdomain, ms, Put(ms, t));
      UpdateTwice(old(pools), t.subdomain, ms, ms);
      err := RegisterIn(pool, t, max);
    }

    /** Delete the session entry of the superseded tunnel, add, mark healthy, index. */
    method RegisterIn(pool: TunnelPool, t: ClientTunnel, max: int) returns (err: Option<PoolError>)
      requires Coupled() && PoolsOk(pools) && t.subdomain in byName && byName[t.subdomain] == pool
      modifies `bySess, `pools, pool, MemberOf(t.subdomain, t.id)`draining, t`localHealthy
      ensures Coupled()
      ensures err.Some? <==> old(!HasId(pools[t.subdomain], t.id)) && |old(pools)[t.subdomain]| >= max
      ensures pools == old(pools)[t.subdomain :=
        if err.None? then Put(old(pools)[t.subdomain], t) else old(pools)[t.subdomain]]
      ensures bySess ==
        if err.None? then Index(DropPrevious(old(pools)[t.subdomain], t.id, old(bySess)), t) else old(bySess)
      ensures forall m :: m in old(MemberOf(t.subdomain, t.id)) ==> m.draining
      ensures t.localHealthy == (err.None? || old(t.localHealthy))
    {
      DropPreviousEntry(pool, t);
      err := AddToPool(t, max);
      if err.None? {
        IndexTunnel(t);
      }
    }

    /** Deletes the session entry of the tunnel that t supersedes. */
    method DropPreviousEntry(pool: TunnelPool, t: ClientTunnel)
      requires t.subdomain in pools && pool.members == pools[t.subdomain]
      modifies this`bySess
      ensures bySess == DropPrevious(pools[t.subdomain], t.id, old(bySess))
    {
      var previous := pool.FindById(t.id);
      if previous != null && previous.session != null {
        bySess := bySess - {previous.session.id};
      }
    }

    method IndexTunnel(t: ClientTunnel)
      modifies this`bySess, t`localHealthy
      ensures bySess == Index(old(bySess), t) && t.localHealthy
    {
      t.localHealthy := true;
      if t.session != null {
        bySess := bySess[t.session.id := t];
      }
    }

    method RemoveBySessionID(sessionId: string)
      requires Valid()
      modifies this`bySess, this`pools, PoolOfSession(sessionId)`members
      ensures Valid()
      ensures bySess == old(bySess) - {sessionId}
      ensures pools == if sessionId !in old(bySess) then old(pools) else
        var t := old(bySess)[sessionId];
        old(pools)[t.subdomain := Delete(old(PoolOf(t.subdomain)), t.id)]
    {
      if sessionId !in bySess {
        return;
      }
      var t := bySess[sessionId];
      RemoveAgrees(pools, bySess, sessionId);
      bySess := bySess - {sessionId};
      if t.subdomain in byName {
        RemoveFromPool(t.subdomain, t.id);
      }
    }

    /** The step of RemoveBySessionID that changes a pool, under the lock of that pool. */
    method RemoveFromPool(sub: string, id: string)
      requires Coupled() && PoolsOk(pools) && sub in byName
      modifies this`pools, OwnPool(sub)`members
      ensures Coupled()
      ensures pools == old(pools)[sub := Delete(old(pools)[sub], id)]
    {
      byName[sub].Remove(id);
      pools := pools[sub := Delete(pools[sub], id)];
    }

    ghost function PoolOfSession(sessionId: string): set<TunnelPool>
      reads `bySess, `byName
    {
      if sessionId in bySess then OwnPool(bySess[sessionId].subdomain) else {}
    }

    /** The member of some pool that carries this session, if there is one. */
    method GetBySessionID(id: string) returns (t: ClientTunnel?)
      requires Valid()
      ensures t != null ==> Member(pools, t) && t.session != null && t.session.id == id
      ensures t == null ==> forall k, m :: k in pools && m in pools[k] ==> m.session == null || m.session.id != id
    {
      t := if id in bySess then bySess[id] else null;
      forall k, m | t == null && k in pools && m in pools[k] && m.session != null ensures m.session.id != id {
        assert Listed(bySess, m);
      }
    }

    method SetLocalHealth(sub: string, clientId: string, ok: bool)
      requires Valid()
      modifies MemberOf(sub, clientId)`localHealthy
      ensures forall m :: m in MemberOf(sub, clientId) ==> m.localHealthy == ok
    {
      if sub !in byName {
        return;
      }
      var t := byName[sub].FindById(clientId);
      if t != null {
        t.localHealthy := ok;
      }
    }
  }
}
