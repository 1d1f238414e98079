/** Merging patches and deletes by version: what a store holds after any sequence of updates. */
module StoreMerge {
  import opened Flags

  /** One update, a patch or a tombstone: it wins when its key is new or its version is greater. */
  function Merge(m: map<string, Flag>, f: Flag): map<string, Flag> {
    if f.key in m && f.version <= m[f.key].version then m else m[f.key := f]
  }

  /** Updates applied in order. */
  function Apply(m: map<string, Flag>, updates: seq<Flag>): map<string, Flag> {
    if updates == [] then m else Merge(Apply(m, updates[..|updates| - 1]), updates[|updates| - 1])
  }

  /** What competes for a key: the entry it starts with, then its updates in the order applied. */
  function Candidates(m: map<string, Flag>, updates: seq<Flag>, key: string): seq<Flag> {
    if updates == [] then (if key in m then [m[key]] else [])
    else
      var u := updates[|updates| - 1];
      Candidates(m, updates[..|updates| - 1], key) + if u.key == key then [u] else []
  }

  lemma {:induction false} CandidatesAre(m: map<string, Flag>, updates: seq<Flag>, key: string)
    ensures forall c :: c in Candidates(m, updates, key) <==>
              (key in m && c == m[key]) || (c in updates && c.key == key)
  {
    if updates != [] {
      CandidatesAre(m, updates[..|updates| - 1], key);
      assert updates == updates[..|updates| - 1] + [updates[|updates| - 1]];
    }
  }

  /** `f` is the earliest of the candidates with the greatest version. */
  ghost predicate EarliestGreatest(cs: seq<Flag>, f: Flag) {
    exists i :: 0 <= i < |cs| && cs[i] == f
             && (forall j :: 0 <= j < |cs| ==> cs[j].version <= f.version)
             && (forall j :: 0 <= j < i ==> cs[j].version < f.version)
  }

  /** After any updates each key holds the earliest-applied entry of greatest version. */
  lemma {:induction false} ApplyKeepsEarliestGreatest(m: map<string, Flag>, updates: seq<Flag>, key: string)
    ensures key in Apply(m, updates) <==> Candidates(m, updates, key) != []
    ensures key in Apply(m, updates) ==> EarliestGreatest(Candidates(m, updates, key), Apply(m, updates)[key])
  {
    hide EarliestGreatest;
    if updates == [] {
      if key in m { SoleCandidate(m[key]); }
    } else {
      var u, init := updates[|updates| - 1], updates[..|updates| - 1];
      ApplyKeepsEarliestGreatest(m, init, key);
      var before := Candidates(m, init, key);
      if u.key == key && before != [] {
        NewCandidate(before, Apply(m, init)[key], u);
      } else if u.key == key {
        SoleCandidate(u);
        assert [] + [u] == [u];
      } else {
        assert before + [] == before;
      }
    }
  }

  lemma SoleCandidate(f: Flag)
    ensures EarliestGreatest([f], f)
  {
    assert [f][0] == f;
  }

  lemma NewCandidate(cs: seq<Flag>, f: Flag, u: Flag)
    requires EarliestGreatest(cs, f)
    ensures EarliestGreatest(cs + [u], if u.version <= f.version then f else u)
  {
    var i :| 0 <= i < |cs| && cs[i] == f && (forall j :: 0 <= j < |cs| ==> cs[j].version <= f.version)
          && (forall j :: 0 <= j < i ==> cs[j].version < f.version);
    var cs' := cs + [u];
    assert cs'[i] == f && cs'[|cs|] == u;
  }

  /** Within a key, a version identifies the entry. */
  ghost predicate VersionsIdentify(m: map<string, Flag>, updates: seq<Flag>) {
    && (forall u, v :: u in updates && v in updates && u.key == v.key && u.version == v.version ==> u == v)
    && (forall u :: u in updates && u.key in m && u.version == m[u.key].version ==> u == m[u.key])
  }

  /** Stores that see the same updates, in whatever order and however often, end up equal. */
  lemma Converges(m: map<string, Flag>, us: seq<Flag>, vs: seq<Flag>)
    requires forall u :: u in us <==> u in vs
    requires VersionsIdentify(m, us) && forall key :: key in m ==> m[key].key == key
    ensures Apply(m, us) == Apply(m, vs)
  {
    forall key ensures key in Apply(m, us) <==> key in Apply(m, vs)
               ensures key in Apply(m, us) ==> Apply(m, us)[key] == Apply(m, vs)[key]
    {
      ApplyKeepsEarliestGreatest(m, us, key);
      ApplyKeepsEarliestGreatest(m, vs, key);
      var cs, ds := Candidates(m, us, key), Candidates(m, vs, key);
      SameCandidates(m, us, vs, key);
      CandidatesAre(m, us, key);
      if cs != [] {
        var f, g := Apply(m, us)[key], Apply(m, vs)[key];
        assert f in cs && g in ds;
        GreatestOfSame(cs, ds, f, g);
      }
    }
  }

  lemma SameCandidates(m: map<string, Flag>, us: seq<Flag>, vs: seq<Flag>, key: string)
    requires forall u :: u in us <==> u in vs
    ensures forall c :: c in Candidates(m, us, key) <==> c in Candidates(m, vs, key)
    ensures Candidates(m, us, key) == [] <==> Candidates(m, vs, key) == []
  {
    hide Candidates;
    CandidatesAre(m, us, key);
    CandidatesAre(m, vs, key);
    var cs, ds := Candidates(m, us, key), Candidates(m, vs, key);
    if cs != [] { assert cs[0] in cs; assert cs[0] in ds; }
    if ds != [] { assert ds[0] in ds; assert ds[0] in cs; }
  }

  lemma GreatestOfSame(cs: seq<Flag>, ds: seq<Flag>, f: Flag, g: Flag)
    requires EarliestGreatest(cs, f) && EarliestGreatest(ds, g) && forall c :: c in cs <==> c in ds
    ensures f.version == g.version
  {
    assert f in cs && g in ds;
    var i :| 0 <= i < |ds| && ds[i] == f;
    var j :| 0 <= j < |cs| && cs[j] == g;
  }

  /** Versions never go down, and no key is ever lost. */
  lemma {:induction false} VersionsNeverDecrease(m: map<string, Flag>, updates: seq<Flag>, key: string)
    requires key in m
    ensures key in Apply(m, updates) && m[key].version <= Apply(m, updates)[key].version
  {
    if updates != [] { VersionsNeverDecrease(m, updates[..|updates| - 1], key); }
  }

  /** What a reader sees: tombstones are hidden. */
  predicate Visible(m: map<string, Flag>, key: string) {
    key in m && !m[key].deleted
  }

  /** A tombstone stays in place exactly until an update of a greater version arrives; until then the
      flag is hidden, and a hidden flag shows again only through a newer patch. */
  lemma {:induction false} TombstoneHides(m: map<string, Flag>, updates: seq<Flag>, key: string)
    requires key in m && m[key].deleted
    ensures key in Apply(m, updates)
    ensures Apply(m, updates)[key] == m[key] <==> forall u :: u in updates && u.key == key ==> u.version <= m[key].version
    ensures Visible(Apply(m, updates), key) ==>
              exists u :: u in updates && u.key == key && u.version > m[key].version && !u.deleted
  {
    hide Apply, Candidates;
    VersionsNeverDecrease(m, updates, key);
    ApplyKeepsEarliestGreatest(m, updates, key);
    CandidatesAre(m, updates, key);
    FirstCandidate(m, updates, key);
    var cs, f := Candidates(m, updates, key), Apply(m, updates)[key];
    var i :| 0 <= i < |cs| && cs[i] == f && (forall j :: 0 <= j < |cs| ==> cs[j].version <= f.version)
          && (forall j :: 0 <= j < i ==> cs[j].version < f.version);
    assert f in cs;
    if forall u :: u in updates && u.key == key ==> u.version <= m[key].version {
      assert i == 0;
    } else {
      var u :| u in updates && u.key == key && u.version > m[key].version;
      assert u in cs;
      var k :| 0 <= k < |cs| && cs[k] == u;
      assert f.version > m[key].version;
    }
  }

  lemma {:induction false} FirstCandidate(m: map<string, Flag>, updates: seq<Flag>, key: string)
    requires key in m
    ensures Candidates(m, updates, key) != [] && Candidates(m, updates, key)[0] == m[key]
  {
    if updates != [] { FirstCandidate(m, updates[..|updates| - 1], key); }
  }
}
