/** The one pass loses nothing, or raises; and exactly when it raises. */
module MetadataProofs {
  import opened MetadataKeys

  // Which names have occurred how often

  ghost predicate Named<V>(entries: seq<Entry<V>>, name: string) {
    exists i :: 0 <= i < |entries| && entries[i].name == name
  }

  ghost predicate Overloaded<V>(entries: seq<Entry<V>>, name: string) {
    exists i, j :: 0 <= i < j < |entries| && entries[i].name == name && entries[j].name == name
  }

  function IndexOf<V>(entries: seq<Entry<V>>, name: string): (i: nat)
    ensures i <= |entries|
    ensures i < |entries| ==> entries[i].name == name
    ensures forall k | 0 <= k < i :: entries[k].name != name
  {
    if entries == [] || entries[0].name == name then 0 else 1 + IndexOf(entries[1..], name)
  }

  lemma OccurrencesGrow<V>(entries: seq<Entry<V>>, e: Entry<V>, name: string)
    ensures Named(entries + [e], name) <==> Named(entries, name) || e.name == name
    ensures Overloaded(entries + [e], name) <==> Overloaded(entries, name) || (e.name == name && Named(entries, name))
  {
    var all := entries + [e];
    assert forall i | 0 <= i < |entries| :: all[i] == entries[i];
    assert all[|entries|] == e;
    if Named(entries, name) && e.name == name {
      var i :| 0 <= i < |entries| && entries[i].name == name;
      assert all[i].name == name && all[|entries|].name == name;
    }
    if Overloaded(entries, name) {
      var i, j :| 0 <= i < j < |entries| && entries[i].name == name && entries[j].name == name;
      assert all[i].name == name && all[j].name == name;
    }
  }

  lemma PresentIsNamed<V>(entries: seq<Entry<V>>, j: nat)
    requires j < |entries|
    ensures Named(entries, entries[j].name)
  {
  }

  // The key each entry has been given

  /** `keys[j]` is where entry `j` is found; no two entries share a key and no key is without its entry. */
  ghost predicate Assigned<V>(entries: seq<Entry<V>>, filtered: map<string, V>, keys: seq<string>) {
    && |keys| == |entries|
    && (forall i, j | 0 <= i < j < |keys| :: keys[i] != keys[j])
    && (forall j | 0 <= j < |keys| :: keys[j] in filtered && filtered[keys[j]] == entries[j].value)
    && (forall k | k in filtered :: k in keys)
  }

  /** The bookkeeping: names seen twice are ambiguous, names seen once are bare and have their type kept. */
  ghost predicate Tracked<V>(entries: seq<Entry<V>>, p: Pass<V>, keys: seq<string>)
    requires |keys| == |entries|
  {
    && (forall n :: n in p.ambiguous <==> Overloaded(entries, n))
    && (forall n :: n in p.removedTypes <==> Named(entries, n) && !Overloaded(entries, n))
    && (forall j | 0 <= j < |entries| && !Overloaded(entries, entries[j].name) ::
          p.removedTypes[entries[j].name] == entries[j].typ && keys[j] == entries[j].name)
  }

  /** The keys after one more entry. */
  function NewKeys<V>(entries: seq<Entry<V>>, p: Pass<V>, keys: seq<string>, e: Entry<V>): seq<string>
    requires |keys| == |entries|
  {
    if e.name in p.ambiguous then keys + [UniqueKey(e.name, e.typ, p.filtered.Keys)]
    else if e.name in p.filtered && e.name in p.removedTypes && IndexOf(entries, e.name) < |entries| then
      var f0 := p.filtered.Keys - {e.name};
      var oldKey := UniqueKey(e.name, p.removedTypes[e.name], f0);
      keys[IndexOf(entries, e.name) := oldKey] + [UniqueKey(e.name, e.typ, f0 + {oldKey})]
    else keys + [e.name]
  }

  lemma AppendAssigned<V>(entries: seq<Entry<V>>, filtered: map<string, V>, keys: seq<string>, e: Entry<V>, key: string)
    requires Assigned(entries, filtered, keys) && key !in filtered
    ensures Assigned(entries + [e], filtered[key := e.value], keys + [key])
  {
    assert forall j | 0 <= j < |keys| :: keys[j] in filtered;
  }

  lemma MoveAssigned<V>(entries: seq<Entry<V>>, filtered: map<string, V>, keys: seq<string>, i: nat, key: string)
    requires Assigned(entries, filtered, keys) && i < |keys| && key !in filtered - {keys[i]}
    ensures Assigned(entries, (filtered - {keys[i]})[key := filtered[keys[i]]], keys[i := key])
  {
    var f := (filtered - {keys[i]})[key := filtered[keys[i]]];
    var moved := keys[i := key];
    forall j | 0 <= j < |keys| ensures moved[j] in f && f[moved[j]] == entries[j].value {
      assert keys[j] in filtered && filtered[keys[j]] == entries[j].value;
      if j != i {
        assert keys[j] != keys[i];
      }
    }
    forall a, b | 0 <= a < b < |moved| ensures moved[a] != moved[b] {
      assert keys[a] in filtered && keys[b] in filtered && keys[a] != keys[b];
    }
    forall k | k in f ensures k in moved {
      if k != key {
        var j :| 0 <= j < |keys| && keys[j] == k;
        assert moved[j] == k;
      } else {
        assert moved[i] == k;
      }
    }
  }

  lemma AddAmbiguous<V>(entries: seq<Entry<V>>, p: Pass<V>, keys: seq<string>, e: Entry<V>)
    requires Assigned(entries, p.filtered, keys) && Tracked(entries, p, keys) && e.name in p.ambiguous
    ensures var keys' := NewKeys(entries, p, keys, e);
      Assigned(entries + [e], Add(p, e).pass.filtered, keys') && Tracked(entries + [e], Add(p, e).pass, keys')
  {
    hide Overloaded, Named, FreeBrackets, Candidate;
    AppendAssigned(entries, p.filtered, keys, e, UniqueKey(e.name, e.typ, p.filtered.Keys));
    OverloadedIsNamed(entries, e.name);
    TrackSame(entries, p, Add(p, e).pass, keys, e, UniqueKey(e.name, e.typ, p.filtered.Keys));
  }

  /** A further entry of an ambiguous name changes no bookkeeping. */
  lemma TrackSame<V>(entries: seq<Entry<V>>, p: Pass<V>, p': Pass<V>, keys: seq<string>, e: Entry<V>, key: string)
    requires |keys| == |entries| && Tracked(entries, p, keys) && Overloaded(entries, e.name) && Named(entries, e.name)
    requires p'.ambiguous == p.ambiguous && p'.removedTypes == p.removedTypes
    ensures Tracked(entries + [e], p', keys + [key])
  {
    hide Overloaded, Named;
    forall n ensures (Overloaded(entries + [e], n) <==> Overloaded(entries, n))
      && (Named(entries + [e], n) <==> Named(entries, n))
    {
      OccurrencesGrow(entries, e, n);
    }
  }

  lemma FreeNameIsNew<V>(entries: seq<Entry<V>>, p: Pass<V>, keys: seq<string>, name: string)
    requires Assigned(entries, p.filtered, keys) && Tracked(entries, p, keys)
    requires name !in p.ambiguous && name !in p.filtered
    ensures !Named(entries, name)
  {
    forall i | 0 <= i < |entries| ensures entries[i].name != name {
      assert keys[i] in p.filtered;
      assert !Overloaded(entries, entries[i].name) || entries[i].name in p.ambiguous;
    }
  }

  lemma AddFresh<V>(entries: seq<Entry<V>>, p: Pass<V>, keys: seq<string>, e: Entry<V>)
    requires Assigned(entries, p.filtered, keys) && Tracked(entries, p, keys)
    requires e.name !in p.ambiguous && e.name !in p.filtered
    ensures var keys' := NewKeys(entries, p, keys, e);
      Assigned(entries + [e], Add(p, e).pass.filtered, keys') && Tracked(entries + [e], Add(p, e).pass, keys')
  {
    hide Overloaded, Named, UniqueKey;
    AppendAssigned(entries, p.filtered, keys, e, e.name);
    FreeNameIsNew(entries, p, keys, e.name);
    TrackFresh(entries, p, Add(p, e).pass, keys, e);
  }

  /** A new name is recorded bare, with its type kept. */
  lemma TrackFresh<V>(entries: seq<Entry<V>>, p: Pass<V>, p': Pass<V>, keys: seq<string>, e: Entry<V>)
    requires |keys| == |entries| && Tracked(entries, p, keys) && !Named(entries, e.name)
    requires p'.ambiguous == p.ambiguous && p'.removedTypes == p.removedTypes[e.name := e.typ]
    ensures Tracked(entries + [e], p', keys + [e.name])
  {
    forall n ensures (Overloaded(entries + [e], n) <==> Overloaded(entries, n))
      && (Named(entries + [e], n) <==> Named(entries, n) || n == e.name)
    {
      OccurrencesGrow(entries, e, n);
    }
    forall j | 0 <= j < |entries| ensures entries[j].name != e.name && Named(entries, entries[j].name) {
    }
    if Overloaded(entries, e.name) {
      OverloadedIsNamed(entries, e.name);
    }
  }

  lemma KeptTypeIsFound<V>(entries: seq<Entry<V>>, p: Pass<V>, keys: seq<string>, name: string)
    requires |keys| == |entries| && Tracked(entries, p, keys) && name in p.removedTypes
    ensures var i := IndexOf(entries, name);
      i < |entries| && keys[i] == name && p.removedTypes[name] == entries[i].typ && Named(entries, name)
  {
    var i := IndexOf(entries, name);
    assert Named(entries, name);
    assert i < |entries| && !Overloaded(entries, entries[i].name);
  }

  lemma AddCollision<V>(entries: seq<Entry<V>>, p: Pass<V>, keys: seq<string>, e: Entry<V>)
    requires Assigned(entries, p.filtered, keys) && Tracked(entries, p, keys)
    requires e.name !in p.ambiguous && e.name in p.filtered && e.name in p.removedTypes
    ensures var keys' := NewKeys(entries, p, keys, e);
      Assigned(entries + [e], Add(p, e).pass.filtered, keys') && Tracked(entries + [e], Add(p, e).pass, keys')
  {
    hide Tracked, Overloaded, Named, FreeBrackets, Candidate;
    KeptTypeIsFound(entries, p, keys, e.name);
    var i := IndexOf(entries, e.name);
    var f0 := p.filtered - {e.name};
    assert f0.Keys == p.filtered.Keys - {e.name};
    var oldKey := UniqueKey(e.name, p.removedTypes[e.name], f0.Keys);
    MoveAssigned(entries, p.filtered, keys, i, oldKey);
    var f1 := f0[oldKey := p.filtered[e.name]];
    assert f1.Keys == f0.Keys + {oldKey};
    AppendAssigned(entries, f1, keys[i := oldKey], e, UniqueKey(e.name, e.typ, f1.Keys));
    TrackCollision(entries, p, Add(p, e).pass, keys, e, oldKey, UniqueKey(e.name, e.typ, f1.Keys));
  }

  /** The second entry of a name makes it ambiguous and forgets the type kept. */
  lemma TrackCollision<V>(entries: seq<Entry<V>>, p: Pass<V>, p': Pass<V>, keys: seq<string>, e: Entry<V>,
                          oldKey: string, key: string)
    requires |keys| == |entries| && Tracked(entries, p, keys) && Named(entries, e.name)
    requires p'.ambiguous == p.ambiguous + {e.name} && p'.removedTypes == p.removedTypes - {e.name}
    requires IndexOf(entries, e.name) < |entries|
    ensures Tracked(entries + [e], p', keys[IndexOf(entries, e.name) := oldKey] + [key])
  {
    hide Overloaded, Named;
    forall n ensures (Overloaded(entries + [e], n) <==> Overloaded(entries, n) || n == e.name)
      && (Named(entries + [e], n) <==> Named(entries, n) || n == e.name)
    {
      OccurrencesGrow(entries, e, n);
    }
    var i := IndexOf(entries, e.name);
    forall j | 0 <= j < |entries| && !Overloaded(entries + [e], entries[j].name)
      ensures entries[j].name in p'.removedTypes
      ensures p'.removedTypes[entries[j].name] == entries[j].typ && keys[i := oldKey][j] == entries[j].name
    {
      PresentIsNamed(entries, j);
      assert entries[j].name != e.name && !Overloaded(entries, entries[j].name);
    }
  }

  /** The keys given to the entries of a pass that did not raise. */
  ghost function KeysGiven<V>(entries: seq<Entry<V>>): (keys: seq<string>)
    requires OnePass(entries).Ok?
    ensures |keys| == |entries|
  {
    if entries == [] then []
    else
      var front := entries[..|entries| - 1];
      NewKeys(front, OnePass(front).pass, KeysGiven(front), entries[|entries| - 1])
  }

  lemma {:induction false} KeysGivenRight<V>(entries: seq<Entry<V>>)
    requires OnePass(entries).Ok?
    ensures Assigned(entries, OnePass(entries).pass.filtered, KeysGiven(entries))
    ensures Tracked(entries, OnePass(entries).pass, KeysGiven(entries))
  {
    hide Assigned, Tracked, NewKeys, Add;
    if entries == [] {
      EmptyPass<V>();
    } else {
      var front, e := entries[..|entries| - 1], entries[|entries| - 1];
      KeysGivenRight(front);
      AddKeeps(front, OnePass(front).pass, KeysGiven(front), e);
      assert front + [e] == entries;
    }
  }

  lemma EmptyPass<V>()
    ensures Assigned<V>([], map[], []) && Tracked<V>([], Pass(map[], {}, map[]), [])
  {
  }

  lemma AddKeeps<V>(entries: seq<Entry<V>>, p: Pass<V>, keys: seq<string>, e: Entry<V>)
    requires Assigned(entries, p.filtered, keys) && Tracked(entries, p, keys) && Add(p, e).Ok?
    ensures var keys' := NewKeys(entries, p, keys, e);
      Assigned(entries + [e], Add(p, e).pass.filtered, keys') && Tracked(entries + [e], Add(p, e).pass, keys')
  {
    hide Assigned, Tracked, NewKeys;
    if e.name in p.ambiguous {
      AddAmbiguous(entries, p, keys, e);
    } else if e.name in p.filtered {
      AddCollision(entries, p, keys, e);
    } else {
      AddFresh(entries, p, keys, e);
    }
  }

  /** No metadata is lost: a pass that does not raise yields one key per entry, each leading to its value. */
  lemma NothingLost<V>(entries: seq<Entry<V>>)
    requires OnePass(entries).Ok?
    ensures exists keys :: Assigned(entries, OnePass(entries).pass.filtered, keys)
    ensures |OnePass(entries).pass.filtered| == |entries|
  {
    hide OnePass, Tracked, KeysGiven;
    var keys := KeysGiven(entries);
    KeysGivenRight(entries);
    var filtered := OnePass(entries).pass.filtered;
    assert Assigned(entries, filtered, keys);
    DistinctCount(keys);
    assert filtered.Keys == set k | k in keys;
  }

  lemma {:induction false} DistinctCount(keys: seq<string>)
    requires forall i, j | 0 <= i < j < |keys| :: keys[i] != keys[j]
    ensures |set k | k in keys| == |keys|
  {
    if keys != [] {
      var front, last := keys[..|keys| - 1], keys[|keys| - 1];
      DistinctCount(front);
      assert last !in front;
      assert (set k | k in keys) == (set k | k in front) + {last};
    }
  }

  /** A name that is new to the input but already a key of the output. */
  ghost predicate Clash<V>(entries: seq<Entry<V>>, k: nat) {
    && k < |entries| && OnePass(entries[..k]).Ok?
    && !Named(entries[..k], entries[k].name)
    && entries[k].name in OnePass(entries[..k]).pass.filtered
  }

  lemma StepErrorIff<V>(entries: seq<Entry<V>>, e: Entry<V>)
    requires OnePass(entries).Ok?
    ensures Add(OnePass(entries).pass, e).KeyError? <==>
      !Named(entries, e.name) && e.name in OnePass(entries).pass.filtered
  {
    hide OnePass, UniqueKey, Assigned, KeysGiven;
    var p, keys := OnePass(entries).pass, KeysGiven(entries);
    KeysGivenRight(entries);
    if Overloaded(entries, e.name) {
      OverloadedIsNamed(entries, e.name);
    }
  }

  lemma OverloadedIsNamed<V>(entries: seq<Entry<V>>, name: string)
    requires Overloaded(entries, name)
    ensures Named(entries, name)
  {
  }

  lemma ClashInRange<V>(entries: seq<Entry<V>>, k: nat)
    requires Clash(entries, k)
    ensures k < |entries|
  {
  }

  lemma EarlierClash<V>(entries: seq<Entry<V>>, k: nat)
    requires k < |entries| - 1
    ensures Clash(entries, k) <==> Clash(entries[..|entries| - 1], k)
  {
    hide OnePass, Named;
    assert entries[..|entries| - 1][..k] == entries[..k];
  }

  lemma LastClash<V>(entries: seq<Entry<V>>)
    requires entries != []
    ensures var front := entries[..|entries| - 1];
      Clash(entries, |entries| - 1)
      <==> OnePass(front).Ok? && Add(OnePass(front).pass, entries[|entries| - 1]).KeyError?
  {
    hide OnePass, Named, Add;
    var front := entries[..|entries| - 1];
    if OnePass(front).Ok? {
      StepErrorIff(front, entries[|entries| - 1]);
    }
  }

  /** The pass raises exactly when some entry's name, at its first occurrence, is already a key. */
  lemma {:induction false} KeyErrorIff<V>(entries: seq<Entry<V>>)
    ensures OnePass(entries).KeyError? <==> exists k: nat :: Clash(entries, k)
  {
    if entries != [] {
      hide Clash, Add;
      var n := |entries| - 1;
      var front := entries[..n];
      KeyErrorIff(front);
      LastClash(entries);
      if k: nat :| Clash(front, k) {
        assert k < n by { ClashInRange(front, k); }
        EarlierClash(entries, k);
      }
      if k: nat :| Clash(entries, k) {
        ClashInRange(entries, k);
        if k < n {
          EarlierClash(entries, k);
        }
      }
    }
  }

  // The key of an entry shows its name, and its type where the name has several

  /** The key is the name, some opening brackets, the type, and as many closing ones. */
  ghost predicate Bracketed(key: string, name: string, typ: string) {
    exists n :: IsBracketed(key, name, typ, n)
  }

  predicate IsBracketed(key: string, name: string, typ: string, n: nat) {
    && n >= 1 && |key| == |name| + n + |typ| + n
    && key[..|name|] == name
    && (forall k | |name| <= k < |name| + n :: key[k] == '<')
    && key[|name| + n..|name| + n + |typ|] == typ
    && (forall k | |name| + n + |typ| <= k < |key| :: key[k] == '>')
  }

  lemma CandidateIsBracketed(name: string, typ: string, n: nat)
    requires n >= 1
    ensures IsBracketed(Candidate(name, typ, n), name, typ, n)
  {
  }

  lemma UniqueKeyIsBracketed(name: string, typ: string, keys: set<string>)
    ensures Bracketed(UniqueKey(name, typ, keys), name, typ)
  {
    hide IsBracketed, Candidate;
    CandidateIsBracketed(name, typ, FreeBrackets(name, typ, keys, 1));
  }

  /** Names that occur once are kept bare; the entries of the others have bracketed keys. */
  ghost predicate Shaped<V>(entries: seq<Entry<V>>, keys: seq<string>)
    requires |keys| == |entries|
  {
    forall j | 0 <= j < |entries| ::
      if Overloaded(entries, entries[j].name) then Bracketed(keys[j], entries[j].name, entries[j].typ)
      else keys[j] == entries[j].name
  }

  lemma ShapeAppend<V>(entries: seq<Entry<V>>, keys: seq<string>, e: Entry<V>, key: string)
    requires |keys| == |entries| && Shaped(entries, keys)
    requires Overloaded(entries, e.name) || !Named(entries, e.name)
    requires if Overloaded(entries, e.name) then Bracketed(key, e.name, e.typ) else key == e.name
    ensures Shaped(entries + [e], keys + [key])
  {
    hide Overloaded, Named, Bracketed;
    var all := entries + [e];
    OccurrencesGrow(entries, e, e.name);
    forall j | 0 <= j < |all|
      ensures if Overloaded(all, all[j].name) then Bracketed((keys + [key])[j], all[j].name, all[j].typ)
              else (keys + [key])[j] == all[j].name
    {
      if j < |entries| {
        PresentIsNamed(entries, j);
        OccurrencesGrow(entries, e, entries[j].name);
      }
    }
  }

  lemma ShapeCollision<V>(entries: seq<Entry<V>>, keys: seq<string>, e: Entry<V>, i: nat, oldKey: string, key: string)
    requires |keys| == |entries| && Shaped(entries, keys)
    requires i < |entries| && entries[i].name == e.name && !Overloaded(entries, e.name)
    requires Bracketed(oldKey, e.name, entries[i].typ) && Bracketed(key, e.name, e.typ)
    ensures Shaped(entries + [e], keys[i := oldKey] + [key])
  {
    hide Bracketed;
    var all, keys' := entries + [e], keys[i := oldKey] + [key];
    OccurrencesGrow(entries, e, e.name);
    PresentIsNamed(entries, i);
    forall j | 0 <= j < |entries| && j != i ensures entries[j].name != e.name {
    }
    hide Overloaded, Named;
    forall j | 0 <= j < |all|
      ensures if Overloaded(all, all[j].name) then Bracketed(keys'[j], all[j].name, all[j].typ)
              else keys'[j] == all[j].name
    {
      if j < |entries| {
        OccurrencesGrow(entries, e, entries[j].name);
      }
    }
  }

  lemma ShapeStep<V>(entries: seq<Entry<V>>, p: Pass<V>, keys: seq<string>, e: Entry<V>)
    requires Assigned(entries, p.filtered, keys) && Tracked(entries, p, keys) && Shaped(entries, keys)
    requires Add(p, e).Ok?
    ensures |NewKeys(entries, p, keys, e)| == |entries + [e]| && Shaped(entries + [e], NewKeys(entries, p, keys, e))
  {
    hide Shaped, Overloaded, Named, UniqueKey, Bracketed;
    if e.name in p.ambiguous {
      UniqueKeyIsBracketed(e.name, e.typ, p.filtered.Keys);
      ShapeAppend(entries, keys, e, UniqueKey(e.name, e.typ, p.filtered.Keys));
    } else if e.name in p.filtered {
      KeptTypeIsFound(entries, p, keys, e.name);
      var i := IndexOf(entries, e.name);
      var f0 := p.filtered.Keys - {e.name};
      var oldKey := UniqueKey(e.name, p.removedTypes[e.name], f0);
      UniqueKeyIsBracketed(e.name, p.removedTypes[e.name], f0);
      UniqueKeyIsBracketed(e.name, e.typ, f0 + {oldKey});
      ShapeCollision(entries, keys, e, i, oldKey, UniqueKey(e.name, e.typ, f0 + {oldKey}));
    } else {
      FreeNameIsNew(entries, p, keys, e.name);
      if Overloaded(entries, e.name) {
        OverloadedIsNamed(entries, e.name);
      }
      ShapeAppend(entries, keys, e, e.name);
    }
  }

  lemma {:induction false} KeysGivenShaped<V>(entries: seq<Entry<V>>)
    requires OnePass(entries).Ok?
    ensures Shaped(entries, KeysGiven(entries))
  {
    hide Assigned, Tracked, NewKeys, Add, Shaped;
    if entries == [] {
      NothingShaped<V>();
    } else {
      var front, e := entries[..|entries| - 1], entries[|entries| - 1];
      KeysGivenShaped(front);
      KeysGivenRight(front);
      ShapeStep(front, OnePass(front).pass, KeysGiven(front), e);
      assert front + [e] == entries;
    }
  }

  lemma NothingShaped<V>()
    ensures Shaped<V>([], [])
  {
  }

  /** A pass that does not raise finds every entry under a key that shows its name, and its type if need be. */
  lemma KeysShowNames<V>(entries: seq<Entry<V>>)
    requires OnePass(entries).Ok?
    ensures exists keys :: Assigned(entries, OnePass(entries).pass.filtered, keys) && Shaped(entries, keys)
  {
    hide Assigned, Shaped, OnePass, Tracked, KeysGiven;
    KeysGivenRight(entries);
    KeysGivenShaped(entries);
  }
}
