/** The candidate list of frontend/src/CandidateManager.jsx. The entries are
    plain objects built with spreads, so an entry is a map from property
    name to value and `{ ...a, ...b }` is the map union `a + b`, whose right
    side wins. The fresh id (`String(Date.now())`) and the time of the call
    are parameters. */
module CandidateManager {

  datatype Value = Text(text: string) | Stamp(time: int)

  type Entry = map<string, Value>

  const IdKey := "id"
  const CreatedKey := "createdAt"
  const UpdatedKey := "updatedAt"

  /** `c.id === id` for a string id: the entry has an `id` property holding
      that text. */
  predicate HasId(c: Entry, id: string) {
    IdKey in c && c[IdKey] == Text(id)
  }

  /** The entry `addCandidate` appends. */
  function NewEntry(data: Entry, freshId: string, now: int): (e: Entry)
    ensures HasId(e, freshId)
    ensures e.Keys == data.Keys + {IdKey, CreatedKey, UpdatedKey}
    ensures e[CreatedKey] == Stamp(now) && e[UpdatedKey] == Stamp(now)
    ensures forall k :: k in data && k !in {IdKey, CreatedKey, UpdatedKey} ==> e[k] == data[k]
  {
    data + map[IdKey := Text(freshId), CreatedKey := Stamp(now), UpdatedKey := Stamp(now)]
  }

  /** `addCandidate`: the list with the new entry at its end. */
  function Add(cs: seq<Entry>, data: Entry, freshId: string, now: int): seq<Entry> {
    cs + [NewEntry(data, freshId, now)]
  }

  /** The entry after `{ ...c, ...data, updatedAt }`. */
  function Edited(c: Entry, data: Entry, now: int): (e: Entry)
    ensures e.Keys == c.Keys + data.Keys + {UpdatedKey}
    ensures e[UpdatedKey] == Stamp(now)
    ensures forall k :: k in data && k != UpdatedKey ==> e[k] == data[k]
    ensures forall k :: k in c && k !in data && k != UpdatedKey ==> e[k] == c[k]
  {
    c + data + map[UpdatedKey := Stamp(now)]
  }

  /** `editCandidate`: every entry with the id edited, every other kept. */
  function Edit(cs: seq<Entry>, id: string, data: Entry, now: int): seq<Entry> {
    seq(|cs|, i requires 0 <= i < |cs| => if HasId(cs[i], id) then Edited(cs[i], data, now) else cs[i])
  }

  /** `deleteCandidate`: the entries without the id, in their order. */
  function Delete(cs: seq<Entry>, id: string): seq<Entry> {
    if cs == [] then []
    else Delete(cs[..|cs| - 1], id) + (if HasId(cs[|cs| - 1], id) then [] else [cs[|cs| - 1]])
  }

  /** Adding appends exactly one entry and keeps every earlier one. */
  lemma AddAppends(cs: seq<Entry>, data: Entry, freshId: string, now: int)
    ensures var r := Add(cs, data, freshId, now);
      && |r| == |cs| + 1 && r[..|cs|] == cs
      && HasId(r[|cs|], freshId)
      && r[|cs|][CreatedKey] == Stamp(now) && r[|cs|][UpdatedKey] == Stamp(now)
      && (forall k :: k in data && k !in {IdKey, CreatedKey, UpdatedKey} ==> r[|cs|][k] == data[k])
  {
    var r := Add(cs, data, freshId, now);
    assert r[..|cs|] == cs;
  }

  /** Editing keeps the length and the order; an entry with the id takes the
      submitted properties, keeps its others and gets the new update time;
      every other entry is unchanged. */
  lemma EditChangesOnlyMatching(cs: seq<Entry>, id: string, data: Entry, now: int)
    ensures var r := Edit(cs, id, data, now);
      && |r| == |cs|
      && (forall i :: 0 <= i < |cs| && !HasId(cs[i], id) ==> r[i] == cs[i])
      && (forall i :: 0 <= i < |cs| && HasId(cs[i], id) ==>
            && r[i][UpdatedKey] == Stamp(now)
            && (forall k :: k in data && k != UpdatedKey ==> r[i][k] == data[k])
            && (forall k :: k in cs[i] && k !in data && k != UpdatedKey ==> r[i][k] == cs[i][k]))
      && ((forall i :: 0 <= i < |cs| ==> !HasId(cs[i], id)) ==> r == cs)
  {
  }

  /** Deleting removes exactly the entries with the id: what is left has no
      such entry, and every other entry is kept. */
  lemma {:induction false} DeleteRemovesOnlyMatching(cs: seq<Entry>, id: string)
    ensures forall c :: c in Delete(cs, id) <==> c in cs && !HasId(c, id)
    ensures |Delete(cs, id)| <= |cs|
  {
    if cs != [] {
      var init := cs[..|cs| - 1];
      DeleteRemovesOnlyMatching(init, id);
      assert cs == init + [cs[|cs| - 1]];
    }
  }

  /** Deleting works piecewise, so the kept entries stay in their original
      order. */
  lemma {:induction false} DeleteOfConcat(a: seq<Entry>, b: seq<Entry>, id: string)
    ensures Delete(a + b, id) == Delete(a, id) + Delete(b, id)
  {
    if b != [] {
      var init := b[..|b| - 1];
      DeleteOfConcat(a, init, id);
      assert (a + b)[..|a + b| - 1] == a + init;
      assert (a + b)[|a + b| - 1] == b[|b| - 1];
    } else {
      assert a + b == a;
    }
  }

  /** Deleting an id that no entry has leaves the list as it was. */
  lemma {:induction false} DeleteAbsentKeepsList(cs: seq<Entry>, id: string)
    requires forall i :: 0 <= i < |cs| ==> !HasId(cs[i], id)
    ensures Delete(cs, id) == cs
  {
    if cs != [] {
      var init := cs[..|cs| - 1];
      assert forall i :: 0 <= i < |init| ==> !HasId(init[i], id) by {
        forall i | 0 <= i < |init| ensures !HasId(init[i], id) {
          assert init[i] == cs[i];
        }
      }
      DeleteAbsentKeepsList(init, id);
      assert cs == init + [cs[|cs| - 1]];
    }
  }

  /** Deleting twice is deleting once. */
  lemma DeleteIdempotent(cs: seq<Entry>, id: string)
    ensures Delete(Delete(cs, id), id) == Delete(cs, id)
  {
    var r := Delete(cs, id);
    DeleteRemovesOnlyMatching(cs, id);
    forall i | 0 <= i < |r| ensures !HasId(r[i], id) {
      assert r[i] in r;
    }
    DeleteAbsentKeepsList(r, id);
  }

  /** Deleting the id of a just-added entry removes that entry and only it,
      provided no earlier entry had the fresh id. */
  lemma DeleteUndoesAdd(cs: seq<Entry>, data: Entry, freshId: string, now: int)
    requires forall i :: 0 <= i < |cs| ==> !HasId(cs[i], freshId)
    ensures Delete(Add(cs, data, freshId, now), freshId) == cs
  {
    var e := NewEntry(data, freshId, now);
    var r := Add(cs, data, freshId, now);
    assert r[..|r| - 1] == cs;
    DeleteAbsentKeepsList(cs, freshId);
  }
}
