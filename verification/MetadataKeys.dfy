/**
 Metadata keys: (name, type) pairs become strings, the type being kept only where a name has several.
 The program does it in one pass over a mutable dictionary; the meaning is a two-pass definition.
 */
module MetadataKeys {
  import opened Prelude

  datatype Entry<V> = Entry(name: string, typ: string, value: V)

  /** A dictionary's items in insertion order: no (name, type) pair occurs twice. */
  predicate Items<V>(entries: seq<Entry<V>>) {
    forall i, j | 0 <= i < j < |entries| :: entries[i].name != entries[j].name || entries[i].typ != entries[j].typ
  }

  // Candidate keys

  function Repeat(c: char, n: nat): (s: string)
    ensures |s| == n && forall k | 0 <= k < n :: s[k] == c
  {
    if n == 0 then "" else Repeat(c, n - 1) + [c]
  }

  /** `name<type>`, `name<<type>>`, and so on. */
  function Candidate(name: string, typ: string, brackets: nat): (s: string)
    ensures |s| == |name| + |typ| + 2 * brackets
  {
    name + Repeat('<', brackets) + typ + Repeat('>', brackets)
  }

  function NoShorter(keys: set<string>, length: nat): set<string> {
    set k | k in keys && |k| >= length
  }

  lemma LongerIsFewer(keys: set<string>, k: string, length: nat)
    requires k in keys && |k| < length
    ensures |NoShorter(keys, length)| < |NoShorter(keys, |k|)|
  {
    assert NoShorter(keys, length) <= NoShorter(keys, |k|) - {k};
    SubsetIsNoLarger(NoShorter(keys, length), NoShorter(keys, |k|) - {k});
  }

  lemma SubsetIsNoLarger<T>(a: set<T>, b: set<T>)
    requires a <= b
    ensures |a| <= |b|
  {
    assert b == a + (b - a);
  }

  /** The first bracket count, from `i` on, whose candidate is free; the search ends because candidates grow. */
  function FreeBrackets(name: string, typ: string, keys: set<string>, i: nat): (n: nat)
    ensures i <= n <= i + |NoShorter(keys, |Candidate(name, typ, i)|)|
    ensures Candidate(name, typ, n) !in keys
    ensures forall j | i <= j < n :: Candidate(name, typ, j) in keys
    decreases |NoShorter(keys, |Candidate(name, typ, i)|)|
  {
    if Candidate(name, typ, i) !in keys then i
    else
      LongerIsFewer(keys, Candidate(name, typ, i), |Candidate(name, typ, i + 1)|);
      FreeBrackets(name, typ, keys, i + 1)
  }

  function UniqueKey(name: string, typ: string, keys: set<string>): string {
    Candidate(name, typ, FreeBrackets(name, typ, keys, 1))
  }

  lemma FreeBracketsIs(name: string, typ: string, keys: set<string>, i: nat, n: nat)
    requires i <= n && Candidate(name, typ, n) !in keys
    requires forall j | i <= j < n :: Candidate(name, typ, j) in keys
    ensures FreeBrackets(name, typ, keys, i) == n
  {
    var f := FreeBrackets(name, typ, keys, i);
    assert Candidate(name, typ, f) !in keys;
    assert forall j | i <= j < f :: Candidate(name, typ, j) in keys;
  }

  /** Builds a key not in the dictionary, in at most one try more than the dictionary has keys. */
  method UniqueStringForKey<V>(name: string, typ: string, dict: map<string, V>) returns (key: string, tries: nat)
    ensures key == UniqueKey(name, typ, dict.Keys) && key !in dict
    ensures 1 <= tries <= |dict| + 1
    ensures key == Candidate(name, typ, tries)
  {
    tries := 1;
    key := Candidate(name, typ, tries);
    SubsetIsNoLarger(NoShorter(dict.Keys, |key|), dict.Keys);
    while key in dict
      invariant key == Candidate(name, typ, tries) && tries >= 1
      invariant forall j | 1 <= j < tries :: Candidate(name, typ, j) in dict
      invariant tries - 1 + |NoShorter(dict.Keys, |key|)| <= |dict|
      decreases |NoShorter(dict.Keys, |key|)|
    {
      LongerIsFewer(dict.Keys, key, |key| + 2);
      tries := tries + 1;
      key := Candidate(name, typ, tries);
    }
    FreeBracketsIs(name, typ, dict.Keys, 1, tries);
  }

  // One pass

  datatype Pass<V> = Pass(filtered: map<string, V>, ambiguous: set<string>, removedTypes: map<string, string>)

  /** A missing key in `removed_types.pop` raises. */
  datatype Outcome<V> = Ok(pass: Pass<V>) | KeyError

  function Add<V>(p: Pass<V>, e: Entry<V>): Outcome<V> {
    if e.name in p.ambiguous then
      Ok(p.(filtered := p.filtered[UniqueKey(e.name, e.typ, p.filtered.Keys) := e.value]))
    else if e.name in p.filtered then
      if e.name !in p.removedTypes then KeyError
      else
        var f0 := p.filtered - {e.name};
        var f1 := f0[UniqueKey(e.name, p.removedTypes[e.name], f0.Keys) := p.filtered[e.name]];
        var f2 := f1[UniqueKey(e.name, e.typ, f1.Keys) := e.value];
        Ok(Pass(f2, p.ambiguous + {e.name}, p.removedTypes - {e.name}))
    else
      Ok(p.(filtered := p.filtered[e.name := e.value], removedTypes := p.removedTypes[e.name := e.typ]))
  }

  function OnePass<V>(entries: seq<Entry<V>>): Outcome<V> {
    if entries == [] then Ok(Pass(map[], {}, map[]))
    else
      var before := OnePass(entries[..|entries| - 1]);
      if before.KeyError? then KeyError else Add(before.pass, entries[|entries| - 1])
  }

  lemma {:induction false} ErrorSticks<V>(entries: seq<Entry<V>>, k: nat)
    requires k <= |entries| && OnePass(entries[..k]).KeyError?
    ensures OnePass(entries).KeyError?
    decreases |entries|
  {
    if k < |entries| {
      var front := entries[..|entries| - 1];
      assert front[..k] == entries[..k];
      ErrorSticks(front, k);
    } else {
      assert entries[..k] == entries;
    }
  }

  /** The program: None stands for the exception. */
  method StringifyMetadataKeys<V>(entries: seq<Entry<V>>) returns (result: Option<map<string, V>>)
    ensures result == if OnePass(entries).Ok? then Some(OnePass(entries).pass.filtered) else None
  {
    var filtered: map<string, V>, ambiguous: set<string>, removedTypes: map<string, string> := map[], {}, map[];
    for k := 0 to |entries|
      invariant OnePass(entries[..k]) == Ok(Pass(filtered, ambiguous, removedTypes))
    {
      var e := entries[k];
      assert entries[..k + 1][..k] == entries[..k];
      if e.name in ambiguous {
        var key, _ := UniqueStringForKey(e.name, e.typ, filtered);
        filtered := filtered[key := e.value];
      } else if e.name in filtered {
        var oldValue := filtered[e.name];
        filtered := filtered - {e.name};
        if e.name !in removedTypes {
          ErrorSticks(entries, k + 1);
          return None;
        }
        var oldType := removedTypes[e.name];
        removedTypes := removedTypes - {e.name};
        var oldKey, _ := UniqueStringForKey(e.name, oldType, filtered);
        filtered := filtered[oldKey := oldValue];
        var key, _ := UniqueStringForKey(e.name, e.typ, filtered);
        filtered := filtered[key := e.value];
        ambiguous := ambiguous + {e.name};
      } else {
        filtered := filtered[e.name := e.value];
        removedTypes := removedTypes[e.name := e.typ];
      }
    }
    assert entries[..|entries|] == entries;
    return Some(filtered);
  }
}
