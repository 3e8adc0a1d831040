/** The one pass against the two-pass definition: equal for every order of the input exactly when keys are clear. */
module MetadataTwoPass {
  import opened MetadataKeys
  import opened MetadataProofs

  // The two-pass meaning

  /** Its key, knowing the whole input: the bare name, or the bracketed one when the name has several types. */
  ghost function TwoPassKey<V>(entries: seq<Entry<V>>, e: Entry<V>): string {
    if Overloaded(entries, e.name) then Candidate(e.name, e.typ, 1) else e.name
  }

  ghost predicate IsTwoPass<V>(entries: seq<Entry<V>>, m: map<string, V>) {
    && (forall j | 0 <= j < |entries| ::
          TwoPassKey(entries, entries[j]) in m && m[TwoPassKey(entries, entries[j])] == entries[j].value)
    && (forall k | k in m :: exists j :: 0 <= j < |entries| && TwoPassKey(entries, entries[j]) == k)
  }

  /** No two bracketed keys coincide. */
  ghost predicate BracketsDistinct<V>(entries: seq<Entry<V>>) {
    forall i, j | 0 <= i < j < |entries|
                  && Overloaded(entries, entries[i].name) && Overloaded(entries, entries[j].name) ::
      Candidate(entries[i].name, entries[i].typ, 1) != Candidate(entries[j].name, entries[j].typ, 1)
  }

  /** No bracketed key is also a name. */
  ghost predicate NoNameBracketed<V>(entries: seq<Entry<V>>) {
    forall i, j | 0 <= i < |entries| && 0 <= j < |entries| && Overloaded(entries, entries[i].name) ::
      Candidate(entries[i].name, entries[i].typ, 1) != entries[j].name
  }

  /** Bracketed keys are distinct from one another and from every name: readable off the input alone. */
  ghost predicate Clear<V>(entries: seq<Entry<V>>) {
    BracketsDistinct(entries) && NoNameBracketed(entries)
  }

  /** Every entry has the key the two-pass definition gives it, as far as the input read so far tells. */
  ghost predicate KeysAsDefined<V>(entries: seq<Entry<V>>, keys: seq<string>)
    requires |keys| == |entries|
  {
    forall j | 0 <= j < |entries| :: keys[j] == TwoPassKey(entries, entries[j])
  }

  lemma FirstIsFree(name: string, typ: string, keys: set<string>)
    requires Candidate(name, typ, 1) !in keys
    ensures UniqueKey(name, typ, keys) == Candidate(name, typ, 1)
  {
    FreeBracketsIs(name, typ, keys, 1, 1);
  }

  lemma ClearPrefix<V>(entries: seq<Entry<V>>, e: Entry<V>)
    requires Clear(entries + [e])
    ensures Clear(entries)
  {
    var all := entries + [e];
    forall i | 0 <= i < |entries|
      ensures all[i] == entries[i] && (Overloaded(entries, entries[i].name) ==> Overloaded(all, entries[i].name))
    {
      OccurrencesGrow(entries, e, entries[i].name);
    }
  }

  /** In a clear input, a bracketed key not yet given is free. */
  lemma BracketedIsFree<V>(entries: seq<Entry<V>>, all: seq<Entry<V>>, keys: seq<string>,
                           filtered: map<string, V>, i: nat)
    requires |keys| == |entries| <= |all| && entries == all[..|entries|] && i < |all|
    requires Clear(all) && Overloaded(all, all[i].name)
    requires forall n :: Overloaded(entries, n) ==> Overloaded(all, n)
    requires forall j | 0 <= j < |entries| && j != i :: keys[j] == TwoPassKey(entries, entries[j])
    requires forall k | k in filtered :: exists j :: 0 <= j < |entries| && j != i && keys[j] == k
    ensures Candidate(all[i].name, all[i].typ, 1) !in filtered
  {
    var c := Candidate(all[i].name, all[i].typ, 1);
    forall j | 0 <= j < |entries| && j != i ensures keys[j] != c {
      assert entries[j] == all[j];
    }
  }

  /** In a clear input, a name found among the keys is there as a bare name. */
  lemma NameKeyIsBare<V>(entries: seq<Entry<V>>, p: Pass<V>, keys: seq<string>, e: Entry<V>)
    requires Assigned(entries, p.filtered, keys) && Tracked(entries, p, keys) && KeysAsDefined(entries, keys)
    requires Clear(entries + [e]) && e.name in p.filtered && e.name !in p.ambiguous
    ensures e.name in p.removedTypes
  {
    var all := entries + [e];
    var j :| 0 <= j < |keys| && keys[j] == e.name;
    assert all[j] == entries[j] && all[|entries|] == e;
    OccurrencesGrow(entries, e, entries[j].name);
    assert !Overloaded(entries, entries[j].name);
    PresentIsNamed(entries, j);
  }

  /** At a collision, neither bracketed key is taken. */
  lemma CollisionFree<V>(entries: seq<Entry<V>>, p: Pass<V>, keys: seq<string>, e: Entry<V>, i: nat)
    requires Assigned(entries, p.filtered, keys) && KeysAsDefined(entries, keys)
    requires Clear(entries + [e]) && i < |entries| && entries[i].name == e.name && keys[i] == e.name
    ensures Candidate(e.name, entries[i].typ, 1) !in p.filtered.Keys - {e.name}
    ensures Candidate(e.name, e.typ, 1) !in p.filtered.Keys - {e.name} + {Candidate(e.name, entries[i].typ, 1)}
  {
    var all := entries + [e];
    hide Overloaded, Candidate;
    assert all[..|entries|] == entries && all[|entries|] == e && all[i] == entries[i];
    forall n ensures Overloaded(entries, n) ==> Overloaded(all, n) {
      OccurrencesGrow(entries, e, n);
    }
    OccurrencesGrow(entries, e, e.name);
    PresentIsNamed(entries, i);
    var f0 := p.filtered - {e.name};
    forall k | k in f0 ensures exists j :: 0 <= j < |entries| && j != i && keys[j] == k {
      var j :| 0 <= j < |keys| && keys[j] == k;
    }
    BracketedIsFree(entries, all, keys, f0, i);
    BracketedIsFree(entries, all, keys, f0, |entries|);
  }

  lemma KeptTypeIsBare<V>(entries: seq<Entry<V>>, p: Pass<V>, keys: seq<string>, name: string)
    requires Assigned(entries, p.filtered, keys) && Tracked(entries, p, keys) && name in p.removedTypes
    ensures |keys| == |entries| && !Overloaded(entries, name)
  {
  }

  lemma CollisionAsDefined<V>(entries: seq<Entry<V>>, p: Pass<V>, keys: seq<string>, e: Entry<V>)
    requires Assigned(entries, p.filtered, keys) && Tracked(entries, p, keys) && KeysAsDefined(entries, keys)
    requires Clear(entries + [e]) && e.name !in p.ambiguous && e.name in p.filtered && e.name in p.removedTypes
    ensures |NewKeys(entries, p, keys, e)| == |entries + [e]|
    ensures KeysAsDefined(entries + [e], NewKeys(entries, p, keys, e))
  {
    hide Assigned, Tracked, KeysAsDefined, Clear, Overloaded, Named, UniqueKey, FreeBrackets, Candidate, IndexOf;
    var i := IndexOf(entries, e.name);
    KeptTypeIsBare(entries, p, keys, e.name);
    KeptTypeIsFound(entries, p, keys, e.name);
    CollisionFree(entries, p, keys, e, i);
    var c := Candidate(e.name, entries[i].typ, 1);
    FirstIsFree(e.name, entries[i].typ, p.filtered.Keys - {e.name});
    FirstIsFree(e.name, e.typ, p.filtered.Keys - {e.name} + {c});
    CollisionDefined(entries, keys, e, i, c);
  }

  lemma CollisionDefined<V>(entries: seq<Entry<V>>, keys: seq<string>, e: Entry<V>, i: nat, c: string)
    requires |keys| == |entries| && KeysAsDefined(entries, keys)
    requires i < |entries| && entries[i].name == e.name && !Overloaded(entries, e.name)
    requires c == Candidate(e.name, entries[i].typ, 1)
    ensures KeysAsDefined(entries + [e], keys[i := c] + [Candidate(e.name, e.typ, 1)])
  {
    hide Candidate;
    var all := entries + [e];
    var keys' := keys[i := c] + [Candidate(e.name, e.typ, 1)];
    OccurrencesGrow(entries, e, e.name);
    PresentIsNamed(entries, i);
    forall j | 0 <= j < |entries| && j != i ensures entries[j].name != e.name {
    }
    hide Overloaded, Named;
    forall j | 0 <= j < |all| ensures keys'[j] == TwoPassKey(all, all[j]) {
      if j < |entries| {
        OccurrencesGrow(entries, e, entries[j].name);
      }
    }
  }

  lemma AppendAsDefined<V>(entries: seq<Entry<V>>, keys: seq<string>, e: Entry<V>, key: string)
    requires |keys| == |entries| && KeysAsDefined(entries, keys)
    requires Overloaded(entries, e.name) || !Named(entries, e.name)
    requires key == if Overloaded(entries, e.name) then Candidate(e.name, e.typ, 1) else e.name
    ensures KeysAsDefined(entries + [e], keys + [key])
  {
    var all := entries + [e];
    hide Candidate, Overloaded, Named;
    OccurrencesGrow(entries, e, e.name);
    forall j | 0 <= j < |all| ensures (keys + [key])[j] == TwoPassKey(all, all[j]) {
      if j < |entries| {
        PresentIsNamed(entries, j);
        OccurrencesGrow(entries, e, entries[j].name);
      }
    }
  }

  /** One more entry of a clear input never raises, and all keys stay as defined. */
  lemma AddAsDefined<V>(entries: seq<Entry<V>>, p: Pass<V>, keys: seq<string>, e: Entry<V>)
    requires Assigned(entries, p.filtered, keys) && Tracked(entries, p, keys) && KeysAsDefined(entries, keys)
    requires Clear(entries + [e])
    ensures Add(p, e).Ok?
    ensures |NewKeys(entries, p, keys, e)| == |entries + [e]|
    ensures KeysAsDefined(entries + [e], NewKeys(entries, p, keys, e))
  {
    hide Overloaded, Named, Candidate, FreeBrackets, UniqueKey, KeysAsDefined, Clear;
    if e.name in p.ambiguous {
      var key := UniqueKey(e.name, e.typ, p.filtered.Keys);
      AmbiguousKey(entries, p, keys, e);
      AppendAsDefined(entries, keys, e, key);
    } else if e.name in p.filtered {
      NameKeyIsBare(entries, p, keys, e);
      CollisionAsDefined(entries, p, keys, e);
    } else {
      FreeNameIsNew(entries, p, keys, e.name);
      NotNamedNotOverloaded(entries, e.name);
      AppendAsDefined(entries, keys, e, e.name);
    }
  }

  lemma NotNamedNotOverloaded<V>(entries: seq<Entry<V>>, name: string)
    requires !Named(entries, name)
    ensures !Overloaded(entries, name)
  {
  }

  lemma AmbiguousKey<V>(entries: seq<Entry<V>>, p: Pass<V>, keys: seq<string>, e: Entry<V>)
    requires Assigned(entries, p.filtered, keys) && Tracked(entries, p, keys) && KeysAsDefined(entries, keys)
    requires Clear(entries + [e]) && e.name in p.ambiguous
    ensures UniqueKey(e.name, e.typ, p.filtered.Keys) == Candidate(e.name, e.typ, 1)
  {
    var all := entries + [e];
    hide Overloaded, Candidate, FreeBrackets, UniqueKey;
    assert all[..|entries|] == entries && all[|entries|] == e;
    forall n ensures Overloaded(entries, n) ==> Overloaded(all, n) {
      OccurrencesGrow(entries, e, n);
    }
    BracketedIsFree(entries, all, keys, p.filtered, |entries|);
    FirstIsFree(e.name, e.typ, p.filtered.Keys);
  }

  lemma {:induction false} ClearRun<V>(entries: seq<Entry<V>>)
    requires Clear(entries)
    ensures OnePass(entries).Ok? && KeysAsDefined(entries, KeysGiven(entries))
  {
    hide Clear, NewKeys, Add, Assigned, Tracked;
    if entries != [] {
      var front, e := entries[..|entries| - 1], entries[|entries| - 1];
      assert front + [e] == entries;
      ClearPrefix(front, e);
      ClearRun(front);
      KeysGivenRight(front);
      AddAsDefined(front, OnePass(front).pass, KeysGiven(front), e);
    }
  }

  /** On a clear input the one pass is the two-pass definition, and it does not raise. */
  lemma OnePassIsTwoPass<V>(entries: seq<Entry<V>>)
    requires Clear(entries)
    ensures OnePass(entries).Ok? && IsTwoPass(entries, OnePass(entries).pass.filtered)
  {
    hide Clear, OnePass, Tracked, KeysGiven, TwoPassKey;
    ClearRun(entries);
    KeysGivenRight(entries);
    var keys := KeysGiven(entries);
    forall k | k in OnePass(entries).pass.filtered
      ensures exists j :: 0 <= j < |entries| && TwoPassKey(entries, entries[j]) == k
    {
      var j :| 0 <= j < |keys| && keys[j] == k;
      assert TwoPassKey(entries, entries[j]) == k;
    }
  }

  // Inputs whose names have no '<' are clear

  ghost predicate NoOpeningBracket<V>(entries: seq<Entry<V>>) {
    forall i | 0 <= i < |entries| :: '<' !in entries[i].name
  }

  lemma BracketAt(name: string, typ: string)
    ensures Candidate(name, typ, 1) == name + "<" + typ + ">"
    ensures Candidate(name, typ, 1)[|name|] == '<'
  {
    assert Repeat('<', 0) == "" && Repeat('>', 0) == "";
    assert Repeat('<', 1) == "<" && Repeat('>', 1) == ">";
  }

  lemma SplitsUniquely(n1: string, t1: string, n2: string, t2: string)
    requires '<' !in n1 && '<' !in n2 && Candidate(n1, t1, 1) == Candidate(n2, t2, 1)
    ensures n1 == n2 && t1 == t2
  {
    BracketAt(n1, t1);
    BracketAt(n2, t2);
    var c := Candidate(n1, t1, 1);
    assert forall k | 0 <= k < |n1| :: c[k] == n1[k] && c[k] != '<';
    assert forall k | 0 <= k < |n2| :: c[k] == n2[k] && c[k] != '<';
    assert |n1| == |n2|;
    assert n1 == c[..|n1|] && n2 == c[..|n2|];
    assert t1 == c[|n1| + 1..|c| - 1] && t2 == c[|n2| + 1..|c| - 1];
  }

  /** Names without an opening bracket are enough for the two-pass meaning. */
  lemma PlainNamesAreClear<V>(entries: seq<Entry<V>>)
    requires Items(entries) && NoOpeningBracket(entries)
    ensures Clear(entries)
  {
    hide Overloaded, Candidate;
    forall i, j | 0 <= i < j < |entries|
      ensures Candidate(entries[i].name, entries[i].typ, 1) != Candidate(entries[j].name, entries[j].typ, 1)
    {
      if Candidate(entries[i].name, entries[i].typ, 1) == Candidate(entries[j].name, entries[j].typ, 1) {
        SplitsUniquely(entries[i].name, entries[i].typ, entries[j].name, entries[j].typ);
      }
    }
    forall i, j | 0 <= i < |entries| && 0 <= j < |entries|
      ensures Candidate(entries[i].name, entries[i].typ, 1) != entries[j].name
    {
      BracketAt(entries[i].name, entries[i].typ);
      var key := Candidate(entries[i].name, entries[i].typ, 1);
      assert key[|entries[i].name|] in key;
    }
  }

  // Order of the input

  /** The same dictionary, filled in another order. */
  ghost predicate Reordered<V>(xs: seq<Entry<V>>, ys: seq<Entry<V>>) {
    && Items(xs) && Items(ys)
    && (forall e | e in xs :: e in ys)
    && (forall e | e in ys :: e in xs)
  }

  lemma OverloadedUnordered<V>(xs: seq<Entry<V>>, ys: seq<Entry<V>>, name: string)
    requires Reordered(xs, ys) && Overloaded(xs, name)
    ensures Overloaded(ys, name)
  {
    var i, j :| 0 <= i < j < |xs| && xs[i].name == name && xs[j].name == name;
    assert xs[i] in ys && xs[j] in ys;
    var a :| 0 <= a < |ys| && ys[a] == xs[i];
    var b :| 0 <= b < |ys| && ys[b] == xs[j];
    assert a != b;
    assert if a < b then ys[a].name == name && ys[b].name == name else ys[b].name == name && ys[a].name == name;
  }

  lemma OverloadedSame<V>(xs: seq<Entry<V>>, ys: seq<Entry<V>>)
    requires Reordered(xs, ys)
    ensures forall n :: Overloaded(ys, n) <==> Overloaded(xs, n)
  {
    forall n ensures Overloaded(ys, n) <==> Overloaded(xs, n) {
      if Overloaded(ys, n) {
        OverloadedUnordered(ys, xs, n);
      }
      if Overloaded(xs, n) {
        OverloadedUnordered(xs, ys, n);
      }
    }
  }

  lemma ClearUnordered<V>(xs: seq<Entry<V>>, ys: seq<Entry<V>>)
    requires Reordered(xs, ys) && Clear(xs)
    ensures Clear(ys)
  {
    hide Candidate, Overloaded;
    OverloadedSame(xs, ys);
    forall i, j | 0 <= i < j < |ys| && Overloaded(ys, ys[i].name) && Overloaded(ys, ys[j].name)
      ensures Candidate(ys[i].name, ys[i].typ, 1) != Candidate(ys[j].name, ys[j].typ, 1)
    {
      var a := PositionOf(xs, ys[i]);
      var b := PositionOf(xs, ys[j]);
      assert a != b;
    }
    forall i, j | 0 <= i < |ys| && 0 <= j < |ys| && Overloaded(ys, ys[i].name)
      ensures Candidate(ys[i].name, ys[i].typ, 1) != ys[j].name
    {
      var a := PositionOf(xs, ys[i]);
      var b := PositionOf(xs, ys[j]);
    }
  }

  lemma PositionOf<V>(xs: seq<Entry<V>>, e: Entry<V>) returns (i: nat)
    requires e in xs
    ensures i < |xs| && xs[i] == e
  {
    i :| 0 <= i < |xs| && xs[i] == e;
  }

  lemma TwoPassUnordered<V>(xs: seq<Entry<V>>, ys: seq<Entry<V>>, m: map<string, V>)
    requires Reordered(xs, ys) && IsTwoPass(ys, m)
    ensures IsTwoPass(xs, m)
  {
    hide Candidate, Overloaded, Items;
    OverloadedSame(xs, ys);
    forall j | 0 <= j < |xs|
      ensures TwoPassKey(xs, xs[j]) in m && m[TwoPassKey(xs, xs[j])] == xs[j].value
    {
      var a := PositionOf(ys, xs[j]);
      assert TwoPassKey(ys, ys[a]) == TwoPassKey(xs, xs[j]);
    }
    forall k | k in m ensures exists j :: 0 <= j < |xs| && TwoPassKey(xs, xs[j]) == k {
      var a :| 0 <= a < |ys| && TwoPassKey(ys, ys[a]) == k;
      var j := PositionOf(xs, ys[a]);
      assert TwoPassKey(xs, xs[j]) == k;
    }
  }

  /** In every order of the input, the pass gives the two-pass result and does not raise. */
  ghost predicate AlwaysTwoPass<V(!new)>(xs: seq<Entry<V>>) {
    forall ys | Reordered(xs, ys) :: OnePass(ys).Ok? && IsTwoPass(xs, OnePass(ys).pass.filtered)
  }

  lemma {:induction false} ImageCount(keys: seq<string>)
    ensures |set k | k in keys| <= |keys|
  {
    if keys != [] {
      var front, last := keys[..|keys| - 1], keys[|keys| - 1];
      ImageCount(front);
      assert (set k | k in keys) == (set k | k in front) + {last};
    }
  }

  /** If two entries have the same two-pass key, the two-pass result is smaller than the input. */
  lemma SharedKeyLosesOne<V>(xs: seq<Entry<V>>, m: map<string, V>, i: nat, j: nat)
    requires i < j < |xs| && TwoPassKey(xs, xs[i]) == TwoPassKey(xs, xs[j])
    requires IsTwoPass(xs, m)
    ensures |m| < |xs|
  {
    hide TwoPassKey;
    var keys := seq(|xs|, l requires 0 <= l < |xs| => TwoPassKey(xs, xs[l]));
    var rest := keys[..j] + keys[j + 1..];
    forall k | k in m ensures k in rest {
      var l :| 0 <= l < |xs| && TwoPassKey(xs, xs[l]) == k;
      var l' := if l == j then i else l;
      assert keys[l'] == k;
      assert if l' < j then rest[l'] == k else rest[l' - 1] == k;
    }
    ImageCount(rest);
    SubsetIsNoLarger(m.Keys, set k | k in rest);
    assert |m.Keys| == |m|;
  }

  /** Three entries in this order raise: the third's name is the key the first two's collision produced. */
  lemma ThreeRaise<V>(a: Entry<V>, b: Entry<V>, c: Entry<V>, rest: seq<Entry<V>>)
    requires a.name == b.name && a.typ != b.typ && c.name == Candidate(a.name, a.typ, 1)
    ensures OnePass([a, b, c] + rest).KeyError?
  {
    var all := [a, b, c] + rest;
    var none: seq<Entry<V>>, one, two, three := [], [a], [a, b], [a, b, c];
    assert one[..0] == none && two[..1] == one && three[..2] == two && all[..3] == three;
    var p1 := Pass(map[a.name := a.value], {}, map[a.name := a.typ]);
    assert OnePass(none) == Ok(Pass(map[], {}, map[]));
    assert OnePass(one) == Ok(p1);
    var f0 := p1.filtered - {a.name};
    assert f0.Keys == {};
    FirstIsFree(a.name, a.typ, f0.Keys);
    var f1 := f0[c.name := a.value];
    var f2 := f1[UniqueKey(b.name, b.typ, f1.Keys) := b.value];
    var p2 := Pass(f2, {a.name}, p1.removedTypes - {a.name});
    assert OnePass(two) == Ok(p2);
    assert c.name != a.name && c.name in f2 && c.name !in p2.removedTypes;
    assert OnePass(three).KeyError?;
    ErrorSticks(all, 3);
  }

  ghost function Others<V>(xs: seq<Entry<V>>, drop: set<Entry<V>>): (rest: seq<Entry<V>>)
    ensures forall e | e in rest :: e in xs && e !in drop
    ensures forall e | e in xs && e !in drop :: e in rest
  {
    if xs == [] then []
    else
      var front, last := xs[..|xs| - 1], xs[|xs| - 1];
      Others(front, drop) + (if last in drop then [] else [last])
  }

  lemma {:induction false} OthersAreItems<V>(xs: seq<Entry<V>>, drop: set<Entry<V>>)
    requires Items(xs)
    ensures Items(Others(xs, drop))
  {
    if xs != [] {
      var front, last := xs[..|xs| - 1], xs[|xs| - 1];
      OthersAreItems(front, drop);
      var rest := Others(front, drop);
      forall k | 0 <= k < |rest| ensures rest[k].name != last.name || rest[k].typ != last.typ {
        assert rest[k] in front;
        var f := PositionOf(front, rest[k]);
        assert xs[f] == rest[k];
      }
    }
  }

  lemma ItemsDiffer<V>(xs: seq<Entry<V>>, e: Entry<V>, f: Entry<V>)
    requires Items(xs) && e in xs && f in xs && e != f
    ensures e.name != f.name || e.typ != f.typ
  {
    var i := PositionOf(xs, e);
    var j := PositionOf(xs, f);
  }

  /** Any three entries can be put first. */
  lemma ThreeFirst<V>(xs: seq<Entry<V>>, a: Entry<V>, b: Entry<V>, c: Entry<V>)
    requires Items(xs) && a in xs && b in xs && c in xs && a != b && a != c && b != c
    ensures Reordered(xs, [a, b, c] + Others(xs, {a, b, c}))
  {
    var rest := Others(xs, {a, b, c});
    var ys := [a, b, c] + rest;
    OthersAreItems(xs, {a, b, c});
    ItemsDiffer(xs, a, b);
    ItemsDiffer(xs, a, c);
    ItemsDiffer(xs, b, c);
    forall k, h | 0 <= k < |rest| && h in {a, b, c} ensures h.name != rest[k].name || h.typ != rest[k].typ {
      assert rest[k] in rest;
      ItemsDiffer(xs, h, rest[k]);
    }
    assert Items(ys);
    assert forall e | e in xs :: e == a || e == b || e == c || e in rest;
  }

  /** Entry `j`'s name is the bracketed key of entry `i`, whose name has several types. */
  ghost predicate BracketedNamed<V>(xs: seq<Entry<V>>, i: nat, j: nat)
    requires i < |xs| && j < |xs|
  {
    Overloaded(xs, xs[i].name) && Candidate(xs[i].name, xs[i].typ, 1) == xs[j].name
  }

  ghost predicate RaisesInSomeOrder<V(!new)>(xs: seq<Entry<V>>) {
    exists ys :: Reordered(xs, ys) && OnePass(ys).KeyError?
  }

  /** A name that is another entry's bracketed key raises in some order. */
  lemma BracketedNameRaises<V(!new)>(xs: seq<Entry<V>>, i: nat, j: nat)
    requires Items(xs) && i < |xs| && j < |xs| && BracketedNamed(xs, i, j)
    ensures RaisesInSomeOrder(xs)
  {
    hide Overloaded, OnePass, Items, Candidate;
    var a, c := xs[i], xs[j];
    var b := OtherOfName(xs, i);
    assert |c.name| > |a.name|;
    ThreeFirst(xs, a, b, c);
    ThreeRaise(a, b, c, Others(xs, {a, b, c}));
  }

  lemma BracketedNameBreaks<V(!new)>(xs: seq<Entry<V>>, i: nat, j: nat)
    requires Items(xs) && i < |xs| && j < |xs|
    requires BracketedNamed(xs, i, j)
    ensures !AlwaysTwoPass(xs)
  {
    hide Overloaded, OnePass, Items, Candidate, Reordered, BracketedNamed;
    BracketedNameRaises(xs, i, j);
  }

  lemma OtherOfName<V>(xs: seq<Entry<V>>, i: nat) returns (b: Entry<V>)
    requires Items(xs) && i < |xs| && Overloaded(xs, xs[i].name)
    ensures b in xs && b.name == xs[i].name && b.typ != xs[i].typ
  {
    var x, y :| 0 <= x < y < |xs| && xs[x].name == xs[i].name && xs[y].name == xs[i].name;
    b := if x == i then xs[y] else xs[x];
  }

  lemma SharedKeyBreaks<V(!new)>(xs: seq<Entry<V>>, i: nat, j: nat)
    requires Items(xs) && i < |xs| && j < |xs| && i != j && TwoPassKey(xs, xs[i]) == TwoPassKey(xs, xs[j])
    ensures !AlwaysTwoPass(xs)
  {
    hide TwoPassKey, OnePass;
    assert Reordered(xs, xs);
    if OnePass(xs).Ok? {
      NothingLost(xs);
      if IsTwoPass(xs, OnePass(xs).pass.filtered) {
        SharedKeyLosesOne(xs, OnePass(xs).pass.filtered, if i < j then i else j, if i < j then j else i);
      }
    }
  }

  lemma UnclearCases<V>(xs: seq<Entry<V>>)
    requires !Clear(xs)
    ensures (exists i, j :: 0 <= i < j < |xs| && TwoPassKey(xs, xs[i]) == TwoPassKey(xs, xs[j]))
      || exists i, j :: 0 <= i < |xs| && 0 <= j < |xs| && BracketedNamed(xs, i, j)
  {
    hide Candidate, Overloaded;
    if i, j :| 0 <= i < |xs| && 0 <= j < |xs| && Overloaded(xs, xs[i].name)
               && Candidate(xs[i].name, xs[i].typ, 1) == xs[j].name {
      assert BracketedNamed(xs, i, j);
    } else {
      var i, j :| 0 <= i < j < |xs| && Overloaded(xs, xs[i].name) && Overloaded(xs, xs[j].name)
                  && Candidate(xs[i].name, xs[i].typ, 1) == Candidate(xs[j].name, xs[j].typ, 1);
      assert TwoPassKey(xs, xs[i]) == TwoPassKey(xs, xs[j]);
    }
  }

  /** Clear keys are exactly what it takes for the result to be the two-pass one in every order. */
  lemma AlwaysTwoPassIff<V(!new)>(xs: seq<Entry<V>>)
    requires Items(xs)
    ensures AlwaysTwoPass(xs) <==> Clear(xs)
  {
    hide Candidate, Overloaded, OnePass;
    if Clear(xs) {
      forall ys | Reordered(xs, ys) ensures OnePass(ys).Ok? && IsTwoPass(xs, OnePass(ys).pass.filtered) {
        ClearUnordered(xs, ys);
        OnePassIsTwoPass(ys);
        TwoPassUnordered(xs, ys, OnePass(ys).pass.filtered);
      }
    } else {
      UnclearCases(xs);
      if i, j :| 0 <= i < j < |xs| && TwoPassKey(xs, xs[i]) == TwoPassKey(xs, xs[j]) {
        SharedKeyBreaks(xs, i, j);
      } else {
        var i, j :| 0 <= i < |xs| && 0 <= j < |xs| && BracketedNamed(xs, i, j);
        BracketedNameBreaks(xs, i, j);
      }
    }
  }

  /**
   When exactly some order of the input raises, read off the input: where no two bracketed keys coincide,
   if and only if some bracketed key is also a name; and that is enough even where they do.
   */
  lemma RaisesInSomeOrderIff<V(!new)>(xs: seq<Entry<V>>)
    requires Items(xs)
    ensures !NoNameBracketed(xs) ==> RaisesInSomeOrder(xs)
    ensures BracketsDistinct(xs) ==> (RaisesInSomeOrder(xs) <==> !NoNameBracketed(xs))
  {
    hide Candidate, Overloaded, OnePass, BracketsDistinct;
    if !NoNameBracketed(xs) {
      var i, j :| 0 <= i < |xs| && 0 <= j < |xs| && Overloaded(xs, xs[i].name)
                  && Candidate(xs[i].name, xs[i].typ, 1) == xs[j].name;
      BracketedNameRaises(xs, i, j);
    } else if BracketsDistinct(xs) {
      AlwaysTwoPassIff(xs);
    }
  }

  /** The failure in its smallest form: `a` with types `t` and `u`, then a name `a<t>`. */
  lemma RaisesOnBracketedName()
    ensures var xs := [Entry("a", "t", 1), Entry("a", "u", 2), Entry("a<t>", "v", 3)];
      Items(xs) && OnePass(xs).KeyError?
  {
    var a, b, c := Entry("a", "t", 1), Entry("a", "u", 2), Entry("a<t>", "v", 3);
    BracketAt("a", "t");
    assert "a" + "<" + "t" + ">" == "a<t>";
    ThreeRaise(a, b, c, []);
    assert [a, b, c] + [] == [a, b, c];
  }

  // Where two bracketed keys coincide, deeper brackets can raise as well

  lemma CandidateText(name: string, typ: string)
    ensures Candidate(name, typ, 1) == name + "<" + typ + ">"
    ensures Candidate(name, typ, 2) == name + "<<" + typ + ">>"
  {
    BracketAt(name, typ);
    assert Repeat('<', 2) == Repeat('<', 1) + "<" == "<<" && Repeat('>', 2) == Repeat('>', 1) + ">" == ">>";
    assert Repeat('<', 1) == "<" && Repeat('>', 1) == ">";
  }

  lemma AddBare<V>(p: Pass<V>, e: Entry<V>)
    requires e.name !in p.ambiguous && e.name !in p.filtered
    ensures Add(p, e) == Ok(Pass(p.filtered[e.name := e.value], p.ambiguous, p.removedTypes[e.name := e.typ]))
  {
  }

  /** A collision, given the keys that the two entries get. */
  lemma AddCollided<V>(p: Pass<V>, e: Entry<V>, m: nat, n: nat)
    requires e.name !in p.ambiguous && e.name in p.filtered && e.name in p.removedTypes
    requires var keys := p.filtered.Keys - {e.name};
      var old1 := Candidate(e.name, p.removedTypes[e.name], m);
      && 1 <= m && 1 <= n && old1 !in keys && Candidate(e.name, e.typ, n) !in keys + {old1}
      && (forall j | 1 <= j < m :: Candidate(e.name, p.removedTypes[e.name], j) in keys)
      && (forall j | 1 <= j < n :: Candidate(e.name, e.typ, j) in keys + {old1})
    ensures var old1, new1 := Candidate(e.name, p.removedTypes[e.name], m), Candidate(e.name, e.typ, n);
      Add(p, e) == Ok(Pass((p.filtered - {e.name})[old1 := p.filtered[e.name]][new1 := e.value],
                           p.ambiguous + {e.name}, p.removedTypes - {e.name}))
  {
    hide Candidate, FreeBrackets;
    var old1 := Candidate(e.name, p.removedTypes[e.name], m);
    var f0 := p.filtered - {e.name};
    assert f0.Keys == p.filtered.Keys - {e.name};
    FreeBracketsIs(e.name, p.removedTypes[e.name], f0.Keys, 1, m);
    var f1 := f0[old1 := p.filtered[e.name]];
    assert f1.Keys == f0.Keys + {old1};
    FreeBracketsIs(e.name, e.typ, f1.Keys, 1, n);
  }

  lemma PassAppend<V>(entries: seq<Entry<V>>, e: Entry<V>)
    requires OnePass(entries).Ok?
    ensures OnePass(entries + [e]) == Add(OnePass(entries).pass, e)
  {
    hide Add;
    assert (entries + [e])[..|entries|] == entries;
  }

  /** The second entry of the only name so far. */
  lemma CollideFirst<V>(p: Pass<V>, a: Entry<V>, b: Entry<V>)
    requires a.name == b.name && Candidate(a.name, a.typ, 1) != Candidate(b.name, b.typ, 1)
    requires p == Pass(map[a.name := a.value], {}, map[a.name := a.typ])
    ensures Add(p, b) == Ok(Pass(map[Candidate(a.name, a.typ, 1) := a.value, Candidate(b.name, b.typ, 1) := b.value],
                                 {a.name}, map[]))
  {
    hide Candidate, Add;
    AddCollided(p, b, 1, 1);
    assert p.filtered - {a.name} == map[] && p.removedTypes - {a.name} == map[] && p.ambiguous + {a.name} == {a.name};
  }

  /** The second entry of another name, whose first has the bracketed key taken already: it gets two brackets. */
  lemma CollideSecond<V>(p: Pass<V>, c: Entry<V>, d: Entry<V>, n: string, k1: string, k2: string)
    requires c.name == d.name && n != c.name && k1 != c.name && k2 != c.name && k1 != k2
    requires p.filtered.Keys == {k1, k2, c.name} && p.ambiguous == {n} && p.removedTypes == map[c.name := c.typ]
    requires Candidate(c.name, c.typ, 1) == k1 && Candidate(c.name, c.typ, 2) !in {k1, k2}
    requires Candidate(d.name, d.typ, 1) !in {k1, k2, Candidate(c.name, c.typ, 2)}
    ensures Add(p, d).Ok? && Candidate(c.name, c.typ, 2) in Add(p, d).pass.filtered
    ensures Add(p, d).pass.ambiguous == {n, c.name} && Add(p, d).pass.removedTypes == map[]
  {
    hide Candidate, Add;
    assert p.filtered.Keys - {c.name} == {k1, k2};
    AddCollided(p, d, 2, 1);
  }

  /** Five entries of which no name is a bracketed key of the first level, and which raise. */
  lemma RaisesOnDeeperBracket()
    ensures
      var xs := [Entry("a", "<t", 1), Entry("a", "x", 2), Entry("a<", "t", 3), Entry("a<", "y", 4),
                 Entry("a<<<t>>", "z", 5)];
      Items(xs) && NoNameBracketed(xs) && !BracketsDistinct(xs) && OnePass(xs).KeyError?
  {
    hide Candidate, Add, OnePass, Items, NoNameBracketed, BracketsDistinct;
    var a, b, c, d := Entry("a", "<t", 1), Entry("a", "x", 2), Entry("a<", "t", 3), Entry("a<", "y", 4);
    var e := Entry("a<<<t>>", "z", 5);
    DeeperInput([a, b, c, d, e]);
    DeeperKeys();
    DeeperRaises(a, b, c, d, e);
  }

  lemma DeeperRaises<V>(a: Entry<V>, b: Entry<V>, c: Entry<V>, d: Entry<V>, e: Entry<V>)
    requires a.name == b.name && c.name == d.name && a.name != c.name
    requires var k1, k2, k4 := Candidate(a.name, a.typ, 1), Candidate(b.name, b.typ, 1), Candidate(d.name, d.typ, 1);
      && k1 == Candidate(c.name, c.typ, 1) && e.name == Candidate(c.name, c.typ, 2)
      && k1 != k2 && c.name !in {k1, k2} && e.name !in {k1, k2, a.name, c.name} && k4 !in {k1, k2, e.name}
    ensures OnePass([a, b, c, d, e]).KeyError?
  {
    hide Candidate, Add, OnePass;
    var k1, k2 := Candidate(a.name, a.typ, 1), Candidate(b.name, b.typ, 1);
    var p0: Pass<V>, p1 := Pass(map[], {}, map[]), Pass(map[a.name := a.value], {}, map[a.name := a.typ]);
    var p2 := Pass(map[k1 := a.value, k2 := b.value], {a.name}, map[]);
    assert [] + [a] == [a] && [a] + [b] == [a, b] && [a, b] + [c] == [a, b, c];
    assert [a, b, c] + [d] == [a, b, c, d] && [a, b, c, d] + [e] == [a, b, c, d, e];
    NothingPassed<V>();
    AddBare(p0, a);
    PassAppend([], a);
    CollideFirst(p1, a, b);
    PassAppend([a], b);
    AddBare(p2, c);
    PassAppend([a, b], c);
    var p3 := Pass(p2.filtered[c.name := c.value], {a.name}, map[c.name := c.typ]);
    CollideSecond(p3, c, d, a.name, k1, k2);
    PassAppend([a, b, c], d);
    AddMissing(Add(p3, d).pass, e);
    PassAppend([a, b, c, d], e);
  }

  lemma NothingPassed<V>()
    ensures OnePass<V>([]) == Ok(Pass(map[], {}, map[]))
  {
  }

  lemma DeeperKeys()
    ensures Candidate("a", "<t", 1) == Candidate("a<", "t", 1) == "a<<t>" && Candidate("a<", "t", 2) == "a<<<t>>"
    ensures Candidate("a", "x", 1) == "a<x>" && Candidate("a<", "y", 1) == "a<<y>"
    ensures "a<<t>" != "a<<y>"
  {
    CandidateText("a", "<t");
    CandidateText("a", "x");
    CandidateText("a<", "t");
    CandidateText("a<", "y");
    assert "a<<t>"[3] == 't' && "a<<y>"[3] == 'y';
  }

  lemma AddMissing<V>(p: Pass<V>, e: Entry<V>)
    requires e.name !in p.ambiguous && e.name in p.filtered && e.name !in p.removedTypes
    ensures Add(p, e).KeyError?
  {
  }

  lemma DeeperInput(xs: seq<Entry<int>>)
    requires xs == [Entry("a", "<t", 1), Entry("a", "x", 2), Entry("a<", "t", 3), Entry("a<", "y", 4),
                    Entry("a<<<t>>", "z", 5)]
    ensures Items(xs) && NoNameBracketed(xs) && !BracketsDistinct(xs)
  {
    DeeperKeys();
    hide Candidate, Overloaded;
    // No bracketed key is as long as any name.
    forall i | 0 <= i < |xs|
      ensures |xs[i].name| in {1, 2, 7} && |Candidate(xs[i].name, xs[i].typ, 1)| in {4, 5, 10}
    {
    }
    TwiceIsOverloaded(xs, 0, 1);
    TwiceIsOverloaded(xs, 2, 3);
  }

  lemma TwiceIsOverloaded<V>(xs: seq<Entry<V>>, i: nat, j: nat)
    requires i < j < |xs| && xs[i].name == xs[j].name
    ensures Overloaded(xs, xs[i].name)
  {
  }
}
