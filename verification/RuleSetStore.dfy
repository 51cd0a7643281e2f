/** Versioned rule sets in a key store with a cache in front of it: saving a draft, activating it, reading sets back. */
module RuleSetStore {
  import opened ByteOrder
  import opened RuleSetKeys
  import RuleMatching

  type Rule = RuleMatching.Rule

  datatype StoredRule = StoredRule(rule: Rule, latest: nat, activated: nat)

  datatype RuleSet = RuleSet(name: Name, rules: seq<Rule>, latestVersion: nat, lastActivation: nat)

  /** What can be cached. Reads of an empty draft end up under no type at all. */
  datatype CacheType = NoType | ActiveSet(prefix: Prefix)

  type Store = map<Key, StoredRule>

  /** A rule set by index. */
  type Rules = map<nat, Rule>

  ghost predicate IndexesIncrease(rules: seq<Rule>) {
    forall i, j :: 0 <= i < j < |rules| ==> rules[i].index < rules[j].index
  }

  /** What the source's key format and batch write need. */
  predicate Saveable(rules: seq<Rule>) {
    && (forall i, j :: 0 <= i < j < |rules| ==> rules[i].index != rules[j].index)
    && forall i :: 0 <= i < |rules| ==> rules[i].index < INDEX_LIMIT
  }

  function ByIndex(rules: seq<Rule>): Rules {
    if rules == [] then map[] else ByIndex(rules[..|rules| - 1])[rules[|rules| - 1].index := rules[|rules| - 1]]
  }

  lemma {:induction false} ByIndexEntries(rules: seq<Rule>)
    requires forall i, j :: 0 <= i < j < |rules| ==> rules[i].index != rules[j].index
    ensures forall i :: 0 <= i < |rules| ==> rules[i].index in ByIndex(rules) && ByIndex(rules)[rules[i].index] == rules[i]
    ensures forall n :: n in ByIndex(rules) ==> exists i :: 0 <= i < |rules| && rules[i].index == n
  {
    if rules != [] {
      var before := rules[..|rules| - 1];
      ByIndexEntries(before);
      forall n | n in ByIndex(rules) ensures exists i :: 0 <= i < |rules| && rules[i].index == n {
        if n in ByIndex(before) {
          var i :| 0 <= i < |before| && before[i].index == n;
          assert rules[i].index == n;
        }
      }
    }
  }

  predicate WellKeyed(store: Store) {
    forall k :: k in store ==> store[k].rule.index == k.index < INDEX_LIMIT
  }

  /** The set of this name holds exactly these rules, each with this version. */
  ghost predicate Stores(store: Store, p: Prefix, name: Name, rules: Rules, latest: nat) {
    forall i :: (Key(p, name, i) in store <==> i in rules)
      && (i in rules ==> store[Key(p, name, i)].rule == rules[i] && store[Key(p, name, i)].latest == latest)
  }

  /** The rules of this name carry this time of activation. */
  ghost predicate ActivatedAt(store: Store, p: Prefix, name: Name, when: nat) {
    forall i :: Key(p, name, i) in store ==> store[Key(p, name, i)].activated == when
  }

  /** rs is what the store holds for the name, in the order of the indexes. */
  ghost predicate IsRead(store: Store, p: Prefix, name: Name, rs: RuleSet) {
    && rs.name == name && IndexesIncrease(rs.rules)
    && (forall i :: 0 <= i < |rs.rules| ==>
          Key(p, name, rs.rules[i].index) in store && store[Key(p, name, rs.rules[i].index)].rule == rs.rules[i])
    && (forall n :: Key(p, name, n) in store ==> exists i :: 0 <= i < |rs.rules| && rs.rules[i].index == n)
    && (rs.rules == [] ==> rs.latestVersion == rs.lastActivation == 0)
    && (rs.rules != [] ==> var first := store[Key(p, name, rs.rules[0].index)];
          rs.latestVersion == first.latest && rs.lastActivation == first.activated)
  }

  /** The history of a rule set: the draft, and all the sets that were ever active. The last of them is active
      under its number as version, and the earlier ones are kept as v1, v2 and so on. */
  ghost predicate Holds(store: Store, p: Prefix, draft: Rules, actives: seq<Rules>) {
    && Stores(store, p, Draft, draft, 0)
    && Stores(store, p, Active, if actives == [] then map[] else actives[|actives| - 1], |actives|)
    && (forall v: nat :: Stores(store, p, Version(v), if 1 <= v < |actives| then actives[v - 1] else map[], 0))
    && forall n :: 0 <= n < |actives| ==> actives[n] != map[]
  }

  lemma ReadIsSaveable(store: Store, p: Prefix, name: Name, rs: RuleSet)
    requires WellKeyed(store) && IsRead(store, p, name, rs)
    ensures Saveable(rs.rules)
  {
    forall i | 0 <= i < |rs.rules| ensures rs.rules[i].index < INDEX_LIMIT {
      assert Key(p, name, rs.rules[i].index) in store;
    }
  }

  lemma ReadIsStored(store: Store, p: Prefix, name: Name, rs: RuleSet, rules: Rules, latest: nat)
    requires WellKeyed(store) && IsRead(store, p, name, rs) && Stores(store, p, name, rules, latest)
    ensures Saveable(rs.rules) && ByIndex(rs.rules) == rules
    ensures rs.rules == [] <==> rules == map[]
    ensures rules != map[] ==> rs.latestVersion == latest
  {
    hide ByIndex, WellKeyed;
    ReadIsSaveable(store, p, name, rs);
    ByIndexEntries(rs.rules);
    forall n ensures n in ByIndex(rs.rules) <==> n in rules {
      assert Key(p, name, n) in store <==> n in rules;
    }
    forall n | n in rules ensures ByIndex(rs.rules)[n] == rules[n] {
      assert Key(p, name, n) in store;
      var i :| 0 <= i < |rs.rules| && rs.rules[i].index == n;
    }
    if rs.rules != [] {
      assert Key(p, name, rs.rules[0].index) in store && rs.rules[0].index in rules;
    } else {
      NothingByIndex();
    }
  }

  lemma NothingByIndex()
    ensures ByIndex([]) == map[]
  {}

  /** What is stored does not depend on the other sets. */
  ghost predicate SameFor(store: Store, store': Store, p: Prefix, name: Name) {
    forall i :: (Key(p, name, i) in store' <==> Key(p, name, i) in store)
      && (Key(p, name, i) in store ==> store'[Key(p, name, i)] == store[Key(p, name, i)])
  }

  lemma SameTwice(store: Store, store': Store, store'': Store, p: Prefix, name: Name)
    requires SameFor(store, store', p, name) && SameFor(store', store'', p, name)
    ensures SameFor(store, store'', p, name)
  {}

  lemma StoresSame(store: Store, store': Store, p: Prefix, name: Name, rules: Rules, latest: nat)
    requires SameFor(store, store', p, name) && Stores(store, p, name, rules, latest)
    ensures Stores(store', p, name, rules, latest)
  {}

  lemma ActivatedSame(store: Store, store': Store, p: Prefix, name: Name, when: nat)
    requires SameFor(store, store', p, name) && ActivatedAt(store, p, name, when)
    ensures ActivatedAt(store', p, name, when)
  {}

  lemma ReadSame(store: Store, store': Store, p: Prefix, name: Name, rs: RuleSet)
    requires SameFor(store, store', p, name) && IsRead(store, p, name, rs)
    ensures IsRead(store', p, name, rs)
  {}

  // ---- writing ----

  function Saved(store: Store, p: Prefix, name: Name, rules: seq<Rule>, latest: nat, activated: nat): Store {
    if rules == [] then store
    else Saved(store, p, name, rules[..|rules| - 1], latest, activated)
      [Key(p, name, rules[|rules| - 1].index) := StoredRule(rules[|rules| - 1], latest, activated)]
  }

  lemma OneMoreStored(store: Store, p: Prefix, name: Name, rules: Rules, rule: Rule, latest: nat, activated: nat)
    requires WellKeyed(store) && Stores(store, p, name, rules, latest) && rule.index < INDEX_LIMIT
    ensures var store' := store[Key(p, name, rule.index) := StoredRule(rule, latest, activated)];
      WellKeyed(store') && Stores(store', p, name, rules[rule.index := rule], latest)
  {}

  lemma {:induction false} SavedStores(store: Store, p: Prefix, name: Name, rules: seq<Rule>, latest: nat, activated: nat)
    requires WellKeyed(store) && Stores(store, p, name, map[], latest) && Saveable(rules)
    ensures var store' := Saved(store, p, name, rules, latest, activated);
      WellKeyed(store') && Stores(store', p, name, ByIndex(rules), latest)
  {
    hide WellKeyed, Stores;
    if rules != [] {
      var before := rules[..|rules| - 1];
      SavedStores(store, p, name, before, latest, activated);
      OneMoreStored(Saved(store, p, name, before, latest, activated), p, name, ByIndex(before), rules[|rules| - 1], latest, activated);
    }
  }

  lemma {:induction false} SavedActivated(store: Store, p: Prefix, name: Name, rules: seq<Rule>, latest: nat, activated: nat)
    requires forall k :: k in store ==> k.prefix != p || k.name != name
    ensures ActivatedAt(Saved(store, p, name, rules, latest, activated), p, name, activated)
  {
    if rules != [] {
      SavedActivated(store, p, name, rules[..|rules| - 1], latest, activated);
    }
  }

  lemma {:induction false} SavedElsewhere(store: Store, p: Prefix, name: Name, rules: seq<Rule>, latest: nat, activated: nat, q: Prefix, n: Name)
    requires q != p || n != name
    ensures SameFor(store, Saved(store, p, name, rules, latest, activated), q, n)
  {
    if rules != [] {
      SavedElsewhere(store, p, name, rules[..|rules| - 1], latest, activated, q, n);
    }
  }

  function Without(store: Store, p: Prefix, name: Name): Store {
    map k | k in store && !(k.prefix == p && k.name == name) :: store[k]
  }

  lemma WithoutStores(store: Store, p: Prefix, name: Name)
    requires WellKeyed(store)
    ensures var store' := Without(store, p, name);
      && WellKeyed(store') && (forall latest :: Stores(store', p, name, map[], latest))
      && forall q, n :: q != p || n != name ==> SameFor(store, store', q, n)
  {}

  lemma NewDraft(store: Store, store': Store, p: Prefix, draft: Rules, draft': Rules, actives: seq<Rules>)
    requires Holds(store, p, draft, actives) && Stores(store', p, Draft, draft', 0)
    requires forall name :: name != Draft ==> SameFor(store, store', p, name)
    ensures Holds(store', p, draft', actives)
  {
    StoresSame(store, store', p, Active, if actives == [] then map[] else actives[|actives| - 1], |actives|);
    forall v: nat ensures Stores(store', p, Version(v), if 1 <= v < |actives| then actives[v - 1] else map[], 0) {
      StoresSame(store, store', p, Version(v), if 1 <= v < |actives| then actives[v - 1] else map[], 0);
    }
  }

  /** The keys of one set. */
  ghost predicate KeysOfSet(store: Store, keys: seq<Key>, p: Prefix, name: Name) {
    forall k :: k in keys <==> k in store && k.prefix == p && k.name == name
  }

  lemma ScanFindsSet(store: Store, keys: seq<Key>, p: Prefix, name: Name)
    requires !name.Version? && forall k :: k in keys <==> k in store && StartsWith(Text(k), PrefixText(p) + NameText(name))
    ensures KeysOfSet(store, keys, p, name)
  {
    hide Text, StartsWith;
    forall k ensures StartsWith(Text(k), PrefixText(p) + NameText(name)) <==> k.prefix == p && k.name == name {
      ScanMeetsOneSet(k, p, name);
    }
  }

  lemma NothingIsRead(store: Store, p: Prefix, name: Name)
    requires forall k :: k in store ==> k.prefix != p || k.name != name
    ensures IsRead(store, p, name, RuleSet(name, [], 0, 0))
  {}

  /** The text order of a scan puts the rules in the order of their indexes. */
  lemma ScanIsRead(store: Store, keys: seq<Key>, p: Prefix, name: Name, rs: RuleSet)
    requires WellKeyed(store) && KeysOfSet(store, keys, p, name) && keys != []
    requires forall i, j :: 0 <= i < j < |keys| ==> TextAtMost(Text(keys[i]), Text(keys[j])) && keys[i] != keys[j]
    requires forall i :: 0 <= i < |keys| ==> keys[i] in store
    requires rs.name == name && |rs.rules| == |keys|
    requires rs.latestVersion == store[keys[0]].latest && rs.lastActivation == store[keys[0]].activated
    requires forall i :: 0 <= i < |keys| ==> rs.rules[i] == store[keys[i]].rule
    ensures IsRead(store, p, name, rs)
  {
    hide Text, TextAtMost;
    assert forall i :: 0 <= i < |keys| ==> keys[i] in keys;
    forall i, j | 0 <= i < j < |keys| ensures rs.rules[i].index < rs.rules[j].index {
      TextOrderIsIndexOrder(keys[i], keys[j]);
    }
    assert forall i :: 0 <= i < |keys| ==> keys[i] == Key(p, name, rs.rules[i].index);
    forall n | Key(p, name, n) in store ensures exists i :: 0 <= i < |rs.rules| && rs.rules[i].index == n {
      var i :| 0 <= i < |keys| && keys[i] == Key(p, name, n);
      assert rs.rules[i].index == n;
    }
  }

  // ---- runs ----

  /** What administrators ask for. */
  datatype Request = Save(rules: seq<Rule>) | Activate

  /** The draft and all the sets that were ever active after these requests. */
  function DraftAfter(requests: seq<Request>): Rules {
    if requests == [] then map[]
    else
      match requests[|requests| - 1]
      case Save(rules) => ByIndex(rules)
      case Activate => map[]
  }

  function ActivesAfter(requests: seq<Request>): seq<Rules> {
    if requests == [] then []
    else
      var before := requests[..|requests| - 1];
      if requests[|requests| - 1].Activate? && DraftAfter(before) != map[] then ActivesAfter(before) + [DraftAfter(before)]
      else ActivesAfter(before)
  }

  class Handler {
    var store: Store
    var cache: map<CacheType, RuleSet>

    ghost predicate Valid()
      reads this
    {
      WellKeyed(store)
    }

    /** A cached active set is the stored one. */
    ghost predicate CacheSound()
      reads this
    {
      forall p :: ActiveSet(p) in cache ==> IsRead(store, p, Active, cache[ActiveSet(p)])
    }

    constructor ()
      ensures Valid() && CacheSound() && forall p :: Holds(store, p, map[], [])
    {
      store, cache := map[], map[];
    }

    // ---- the cache ----

    /** Adds, but never replaces. */
    method StoreInCache(t: CacheType, rs: RuleSet)
      modifies this`cache
      ensures cache == if t in old(cache) then old(cache) else old(cache)[t := rs]
    {
      if t !in cache {
        cache := cache[t := rs];
      }
    }

    method InvalidateCache(t: CacheType)
      modifies this`cache
      ensures cache == old(cache) - {t}
    {
      cache := cache - {t};
    }

    // ---- the key store ----

    method LeastKey(keys: set<Key>) returns (least: Key)
      requires keys != {}
      ensures least in keys && forall k :: k in keys ==> TextAtMost(Text(least), Text(k))
    {
      least :| least in keys;
      var rest := keys - {least};
      TextTotal(Text(least), Text(least));
      while rest != {}
        invariant rest <= keys && least in keys
        invariant forall k :: k in keys - rest ==> TextAtMost(Text(least), Text(k))
      {
        var k :| k in rest;
        rest := rest - {k};
        TextTotal(Text(least), Text(k));
        TextTotal(Text(k), Text(k));
        if !TextAtMost(Text(least), Text(k)) {
          forall l | l in keys - rest - {k} ensures TextAtMost(Text(k), Text(l)) {
            TextTransitive(Text(k), Text(least), Text(l));
          }
          least := k;
        }
      }
    }

    /** A range query by sort key: everything that starts with the text, in text order. */
    method FindStartingWith(q: string) returns (keys: seq<Key>)
      ensures forall k :: k in keys <==> k in store && StartsWith(Text(k), q)
      ensures forall i, j :: 0 <= i < j < |keys| ==> TextAtMost(Text(keys[i]), Text(keys[j])) && keys[i] != keys[j]
    {
      hide TextAtMost, Text, StartsWith;
      keys := [];
      var rest := set k | k in store && StartsWith(Text(k), q);
      ghost var all := rest;
      while rest != {}
        invariant rest <= all && forall k :: k in keys <==> k in all - rest
        invariant forall i, k :: 0 <= i < |keys| && k in rest ==> TextAtMost(Text(keys[i]), Text(k))
        invariant forall i, j :: 0 <= i < j < |keys| ==> TextAtMost(Text(keys[i]), Text(keys[j])) && keys[i] != keys[j]
      {
        var k := LeastKey(rest);
        assert forall i :: 0 <= i < |keys| ==> keys[i] in keys;
        rest := rest - {k};
        keys := keys + [k];
      }
    }

    method CreateRuleSet(rs: RuleSet, p: Prefix, now: nat)
      modifies this`store
      ensures store == Saved(old(store), p, rs.name, rs.rules,
                             if rs.name.Active? then rs.latestVersion else 0, if rs.name.Active? then now else rs.lastActivation)
    {
      var i := 0;
      var latest, activated := if rs.name.Active? then rs.latestVersion else 0, if rs.name.Active? then now else rs.lastActivation;
      while i < |rs.rules|
        invariant 0 <= i <= |rs.rules| && store == Saved(old(store), p, rs.name, rs.rules[..i], latest, activated)
      {
        assert rs.rules[..i + 1][..i] == rs.rules[..i];
        store := store[Key(p, rs.name, rs.rules[i].index) := StoredRule(rs.rules[i], latest, activated)];
        i := i + 1;
      }
      assert rs.rules[..i] == rs.rules;
    }

    method DeleteRuleSet(name: Name, p: Prefix)
      requires !name.Version?
      modifies this`store
      ensures store == Without(old(store), p, name)
    {
      hide Text, StartsWith;
      var keys := FindStartingWith(PrefixText(p) + NameText(name));
      ScanFindsSet(store, keys, p, name);
      store := map k | k in store && k !in keys :: store[k];
    }

    /** The active set comes from the cache when it is there; what is read is then cached. */
    method GetRuleSet(name: Name, p: Prefix) returns (rs: RuleSet)
      requires Valid() && CacheSound() && !name.Version?
      modifies this`cache
      ensures CacheSound() && IsRead(store, p, name, rs)
      ensures name.Active? ==> ActiveSet(p) in cache && cache[ActiveSet(p)] == rs
      ensures forall q :: q != p || !name.Active? ==> (ActiveSet(q) in cache <==> ActiveSet(q) in old(cache))
    {
      hide Text, StartsWith, TextAtMost, IsRead;
      if name.Active? && ActiveSet(p) in cache {
        return cache[ActiveSet(p)];
      }
      var keys := FindStartingWith(PrefixText(p) + NameText(name));
      ScanFindsSet(store, keys, p, name);
      if |keys| == 0 {
        NothingIsRead(store, p, name);
        rs := RuleSet(name, [], 0, 0);
        StoreInCache(if name.Active? then ActiveSet(p) else NoType, rs);
        return;
      }
      assert forall i :: 0 <= i < |keys| ==> keys[i] in keys;
      var stored := store;
      var rules := seq(|keys|, i requires 0 <= i < |keys| && keys[i] in stored => stored[keys[i]].rule);
      rs := RuleSet(name, rules, store[keys[0]].latest, store[keys[0]].activated);
      ScanIsRead(store, keys, p, name, rs);
      if name.Active? {
        StoreInCache(ActiveSet(p), rs);
      }
    }

    // ---- saving and activating ----

    /** Writes a set where there was none; the other sets stay as they are. */
    method WriteRuleSet(rs: RuleSet, p: Prefix, now: nat)
      requires Valid() && Saveable(rs.rules) && Stores(store, p, rs.name, map[], if rs.name.Active? then rs.latestVersion else 0)
      modifies this`store
      ensures Valid() && Stores(store, p, rs.name, ByIndex(rs.rules), if rs.name.Active? then rs.latestVersion else 0)
      ensures ActivatedAt(store, p, rs.name, if rs.name.Active? then now else rs.lastActivation)
      ensures forall q, name :: q != p || name != rs.name ==> SameFor(old(store), store, q, name)
    {
      var latest, activated := if rs.name.Active? then rs.latestVersion else 0, if rs.name.Active? then now else rs.lastActivation;
      SavedStores(store, p, rs.name, rs.rules, latest, activated);
      NothingStored(store, p, rs.name, latest);
      SavedActivated(store, p, rs.name, rs.rules, latest, activated);
      forall q, name | q != p || name != rs.name ensures SameFor(store, Saved(store, p, rs.name, rs.rules, latest, activated), q, name) {
        SavedElsewhere(store, p, rs.name, rs.rules, latest, activated, q, name);
      }
      CreateRuleSet(rs, p, now);
    }

    /** Removes a set; the other sets stay as they are. */
    method RemoveRuleSet(name: Name, p: Prefix)
      requires Valid() && !name.Version?
      modifies this`store
      ensures Valid() && forall latest :: Stores(store, p, name, map[], latest)
      ensures forall q, n :: q != p || n != name ==> SameFor(old(store), store, q, n)
    {
      WithoutStores(store, p, name);
      DeleteRuleSet(name, p);
    }

    /** A new draft replaces the old one, and nothing else changes. */
    method SaveRuleSet(rules: seq<Rule>, p: Prefix, now: nat, ghost draft: Rules, ghost actives: seq<Rules>)
      requires Valid() && CacheSound() && Saveable(rules) && Holds(store, p, draft, actives)
      modifies this`store
      ensures Valid() && CacheSound() && Holds(store, p, ByIndex(rules), actives) && ActivatedAt(store, p, Draft, 0)
      ensures forall q, name :: q != p || name != Draft ==> SameFor(old(store), store, q, name)
    {
      hide SameFor, IsRead, Stores, Holds, ActivatedAt;
      RemoveRuleSet(Draft, p);
      label Removed:
      WriteRuleSet(RuleSet(Draft, rules, 0, 0), p, now);
      forall q, name | q != p || name != Draft ensures SameFor(old(store), store, q, name) {
        SameTwice(old(store), old@Removed(store), store, q, name);
      }
      NewDraft(old(store), store, p, draft, ByIndex(rules), actives);
      forall q | ActiveSet(q) in cache ensures IsRead(store, q, Active, cache[ActiveSet(q)]) {
        ReadSame(old(store), store, q, Active, cache[ActiveSet(q)]);
      }
    }

    /** The active set is filed under its version and is active no more. */
    method DeactivateRuleSet(rs: RuleSet, p: Prefix, now: nat)
      requires Valid() && Saveable(rs.rules) && Stores(store, p, Version(rs.latestVersion), map[], 0)
      modifies this`store
      ensures Valid()
      ensures ActivatedAt(store, p, Version(rs.latestVersion), rs.lastActivation)
      ensures Stores(store, p, Version(rs.latestVersion), ByIndex(rs.rules), 0) && forall latest :: Stores(store, p, Active, map[], latest)
      ensures forall q, name :: q != p || (name != Active && name != Version(rs.latestVersion)) ==> SameFor(old(store), store, q, name)
    {
      hide SameFor, Stores, ActivatedAt;
      WriteRuleSet(RuleSet(Version(rs.latestVersion), rs.rules, 0, rs.lastActivation), p, now);
      label Written:
      RemoveRuleSet(Active, p);
      StoresSame(old@Written(store), store, p, Version(rs.latestVersion), ByIndex(rs.rules), 0);
      ActivatedSame(old@Written(store), store, p, Version(rs.latestVersion), rs.lastActivation);
      forall q, name | q != p || (name != Active && name != Version(rs.latestVersion)) ensures SameFor(old(store), store, q, name) {
        SameTwice(old(store), old@Written(store), store, q, name);
      }
    }

    /** What an activation does to the store once the draft and the active set were read. */
    method ReplaceActive(p: Prefix, now: nat, draftSet: RuleSet, oldActive: RuleSet, ghost draft: Rules, ghost actives: seq<Rules>)
      requires Valid() && Holds(store, p, draft, actives)
      requires Saveable(draftSet.rules) && ByIndex(draftSet.rules) == draft && draft != map[]
      requires Saveable(oldActive.rules) && ByIndex(oldActive.rules) == (if actives == [] then map[] else actives[|actives| - 1])
      requires oldActive.rules == [] <==> actives == []
      requires actives != [] ==> oldActive.latestVersion == |actives|
      modifies this`store
      ensures Valid() && Holds(store, p, map[], actives + [draft]) && ActivatedAt(store, p, Active, now)
      ensures actives != [] ==> ActivatedAt(store, p, Version(|actives|), oldActive.lastActivation)
      ensures forall q, name :: q != p ==> SameFor(old(store), store, q, name)
    {
      hide SameFor, Stores, ByIndex, Saveable, ActivatedAt;
      var latestVersion := 0;
      if |oldActive.rules| > 0 {
        latestVersion := oldActive.latestVersion;
        assert Stores(store, p, Version(latestVersion), map[], 0);
        DeactivateRuleSet(oldActive, p, now);
      } else {
        SameAsItself(store);
        EmptyAtAnyVersion(store, p, Active);
      }
      label Deactivated:
      WriteRuleSet(RuleSet(Active, draftSet.rules, latestVersion + 1, now), p, now);
      label Written:
      RemoveRuleSet(Draft, p);
      forall q, name | q != p || (name != Active && name != Draft && (actives == [] || name != Version(|actives|)))
        ensures SameFor(old(store), store, q, name)
      {
        SameTwice(old@Deactivated(store), old@Written(store), store, q, name);
        SameTwice(old(store), old@Deactivated(store), store, q, name);
      }
      StoresSame(old@Written(store), store, p, Active, draft, |actives| + 1);
      ActivatedSame(old@Written(store), store, p, Active, now);
      if actives != [] {
        SameTwice(old@Deactivated(store), old@Written(store), store, p, Version(|actives|));
        StoresSame(old@Deactivated(store), store, p, Version(|actives|), actives[|actives| - 1], 0);
        ActivatedSame(old@Deactivated(store), store, p, Version(|actives|), oldActive.lastActivation);
      }
      NewVersion(old(store), store, p, draft, actives);
    }

    /** The draft becomes the next version and is gone as a draft; the version before it joins the historical ones.
        Whether the cached active set is still right is left to the caller. */
    method ActivateRuleSet(p: Prefix, now: nat, ghost draft: Rules, ghost actives: seq<Rules>) returns (ok: bool, oldActive: RuleSet)
      requires Valid() && CacheSound() && Holds(store, p, draft, actives)
      modifies this
      ensures Valid() && (ok <==> draft != map[])
      ensures !ok ==> store == old(store) && CacheSound()
      ensures ok ==> Holds(store, p, map[], actives + [draft]) && ActivatedAt(store, p, Active, now)
      ensures ok && actives != [] ==> ActivatedAt(store, p, Version(|actives|), oldActive.lastActivation)
      ensures ok ==> IsRead(old(store), p, Active, oldActive) && ActiveSet(p) in cache && cache[ActiveSet(p)] == oldActive
      ensures ok && actives != [] ==> forall when :: ActivatedAt(old(store), p, Active, when) ==> oldActive.lastActivation == when
      ensures forall q :: q != p && ActiveSet(q) in cache ==> IsRead(store, q, Active, cache[ActiveSet(q)])
    {
      hide SameFor, Stores, IsRead, ByIndex, Saveable, ActivatedAt;
      var draftSet := GetRuleSet(Draft, p);
      ReadIsStored(store, p, Draft, draftSet, draft, 0);
      if |draftSet.rules| == 0 {
        return false, RuleSet(Active, [], 0, 0);
      }
      oldActive := GetRuleSet(Active, p);
      ReadIsStored(store, p, Active, oldActive, if actives == [] then map[] else actives[|actives| - 1], |actives|);
      if actives != [] {
        ReadActivated(store, p, oldActive);
      }
      ReplaceActive(p, now, draftSet, oldActive, draft, actives);
      forall q | q != p && ActiveSet(q) in cache ensures IsRead(store, q, Active, cache[ActiveSet(q)]) {
        ReadSame(old(store), store, q, Active, cache[ActiveSet(q)]);
      }
      return true, oldActive;
    }

    /** Activation of the stitching rules empties the index of the old rules before it drops the cached set, and returns
        early when that fails: exactly then a set that is no longer active stays in the cache. */
    method ActivateIdResRuleSet(now: nat, emptyingFails: bool, ghost draft: Rules, ghost actives: seq<Rules>) returns (ok: bool)
      requires Valid() && CacheSound() && Holds(store, Stitching, draft, actives)
      modifies this
      ensures Valid()
      ensures Holds(store, Stitching, if draft == map[] then draft else map[], if draft == map[] then actives else actives + [draft])
      ensures draft != map[] ==> ActivatedAt(store, Stitching, Active, now)
      ensures draft != map[] && actives != [] ==>
        forall when :: ActivatedAt(old(store), Stitching, Active, when) ==> ActivatedAt(store, Stitching, Version(|actives|), when)
      ensures CacheSound() <==> draft == map[] || actives == [] || !emptyingFails
      ensures ok <==> draft != map[] && (actives == [] || !emptyingFails)
    {
      ghost var last := if actives == [] then map[] else actives[|actives| - 1];
      var oldActive;
      ok, oldActive := ActivateRuleSet(Stitching, now, draft, actives);
      if ok {
        ReadIsStored(old(store), Stitching, Active, oldActive, last, |actives|);
        if |oldActive.rules| > 0 && emptyingFails {
          StaleRead(store, Stitching, oldActive, draft, |actives|);
          return false;
        }
      }
      InvalidateCache(ActiveSet(Stitching));
    }

    method ActivateCacheRuleSet(now: nat, ghost draft: Rules, ghost actives: seq<Rules>) returns (ok: bool)
      requires Valid() && CacheSound() && Holds(store, Caching, draft, actives)
      modifies this
      ensures Valid() && CacheSound() && (ok <==> draft != map[])
      ensures Holds(store, Caching, if draft == map[] then draft else map[], if draft == map[] then actives else actives + [draft])
      ensures draft != map[] ==> ActivatedAt(store, Caching, Active, now)
      ensures draft != map[] && actives != [] ==>
        forall when :: ActivatedAt(old(store), Caching, Active, when) ==> ActivatedAt(store, Caching, Version(|actives|), when)
    {
      var oldActive;
      ok, oldActive := ActivateRuleSet(Caching, now, draft, actives);
      InvalidateCache(ActiveSet(Caching));
    }
  }

  /** Over every list of saves and activations, from an empty store: the draft is the last one saved and not yet activated,
      the active set is the last one activated, under its number as version, every earlier one is kept as its version,
      and the cached active set is the stored one. */
  method Serve(requests: seq<Request>, p: Prefix, now: nat) returns (handler: Handler)
    requires forall i :: 0 <= i < |requests| && requests[i].Save? ==> Saveable(requests[i].rules)
    ensures handler.Valid() && handler.CacheSound()
    ensures Holds(handler.store, p, DraftAfter(requests), ActivesAfter(requests))
  {
    hide Holds, Saveable, ByIndex;
    handler := new Handler();
    var i := 0;
    while i < |requests|
      invariant 0 <= i <= |requests| && fresh(handler)
      invariant handler.Valid() && handler.CacheSound()
      invariant Holds(handler.store, p, DraftAfter(requests[..i]), ActivesAfter(requests[..i]))
    {
      assert requests[..i + 1][..i] == requests[..i] && requests[..i + 1][i] == requests[i];
      ghost var draft, actives := DraftAfter(requests[..i]), ActivesAfter(requests[..i]);
      var ok;
      match requests[i] {
        case Save(rules) => handler.SaveRuleSet(rules, p, now, draft, actives);
        case Activate =>
          if p == Stitching {
            ok := handler.ActivateIdResRuleSet(now, false, draft, actives);
          } else {
            ok := handler.ActivateCacheRuleSet(now, draft, actives);
          }
      }
      i := i + 1;
    }
    assert requests[..i] == requests;
  }

  lemma ReadActivated(store: Store, p: Prefix, rs: RuleSet)
    requires IsRead(store, p, Active, rs) && rs.rules != []
    ensures forall when :: ActivatedAt(store, p, Active, when) ==> rs.lastActivation == when
  {}

  lemma NothingStored(store: Store, p: Prefix, name: Name, latest: nat)
    requires Stores(store, p, name, map[], latest)
    ensures forall k :: k in store ==> k.prefix != p || k.name != name
  {
    forall k | k in store ensures k.prefix != p || k.name != name {
      assert k == Key(k.prefix, k.name, k.index);
    }
  }

  lemma SameAsItself(store: Store)
    ensures forall p, name :: SameFor(store, store, p, name)
  {}

  lemma EmptyAtAnyVersion(store: Store, p: Prefix, name: Name)
    ensures forall latest, latest' :: Stores(store, p, name, map[], latest) ==> Stores(store, p, name, map[], latest')
  {}

  lemma NewVersion(store: Store, store': Store, p: Prefix, draft: Rules, actives: seq<Rules>)
    requires Holds(store, p, draft, actives) && draft != map[]
    requires Stores(store', p, Draft, map[], 0) && Stores(store', p, Active, draft, |actives| + 1)
    requires actives != [] ==> Stores(store', p, Version(|actives|), actives[|actives| - 1], 0)
    requires forall v: nat :: v != |actives| || actives == [] ==> SameFor(store, store', p, Version(v))
    ensures Holds(store', p, map[], actives + [draft])
  {}

  /** The set that was active before is not what the store holds after an activation: its version is too low. */
  lemma StaleRead(store: Store, p: Prefix, oldActive: RuleSet, draft: Rules, latest: nat)
    requires oldActive.rules != [] && oldActive.latestVersion == latest && Stores(store, p, Active, draft, latest + 1)
    ensures !IsRead(store, p, Active, oldActive)
  {}
}
