/** The search history kept in local storage (src/utils/history.js): a list
    of `{id, name}` records, most recent first, at most ten long. Storage is
    modelled as the list it holds, or `None` when nothing is stored. */
module History {
  import opened Optional

  datatype Entry = Entry(id: string, name: string)

  /** How many entries `saveHistory` keeps. */
  const Capacity: nat := 10

  /** `getHistory()`: the stored list, or the empty list when nothing is
      stored. */
  function Get(stored: Option<seq<Entry>>): (h: seq<Entry>)
    ensures stored.None? ==> h == []
    ensures stored.Some? ==> h == stored.value
  {
    match stored
    case None => []
    case Some(h) => h
  }

  /** `name || id`: an absent or empty name falls back to the id. */
  function ShownName(id: string, name: Option<string>): (s: string)
    ensures name.Some? && name.value != "" ==> s == name.value
    ensures name.None? || name.value == "" ==> s == id
  {
    if name.Some? && name.value != "" then name.value else id
  }

  /** `h.filter((x) => x.id !== id)`. */
  function Without(h: seq<Entry>, id: string): (r: seq<Entry>)
    ensures |r| <= |h|
    ensures forall i :: 0 <= i < |r| ==> r[i].id != id && r[i] in h
  {
    if h == [] then []
    else if h[0].id == id then Without(h[1..], id)
    else [h[0]] + Without(h[1..], id)
  }

  /** `saveHistory(id, name)`: the list written back to storage. */
  function Save(stored: Option<seq<Entry>>, id: string, name: Option<string>): (r: seq<Entry>)
    ensures 1 <= |r| <= Capacity
    ensures r[0] == Entry(id, ShownName(id, name))
    ensures forall i :: 1 <= i < |r| ==> r[i].id != id
  {
    var h := [Entry(id, ShownName(id, name))] + Without(Get(stored), id);
    if |h| <= Capacity then h else h[..Capacity]
  }

  /** `removeHistory(id)`: the list written back to storage. */
  function Remove(stored: Option<seq<Entry>>, id: string): (r: seq<Entry>)
    ensures forall i :: 0 <= i < |r| ==> r[i].id != id
  {
    Without(Get(stored), id)
  }

  /** Filtering works entry by entry and keeps the order of the list: the
      filtered concatenation is the concatenation of the filtered parts, and
      a single entry is kept exactly when its id differs. */
  lemma {:induction false} WithoutAppend(a: seq<Entry>, b: seq<Entry>, id: string)
    ensures Without(a + b, id) == Without(a, id) + Without(b, id)
  {
    if a != [] {
      assert (a + b)[1..] == a[1..] + b;
      WithoutAppend(a[1..], b, id);
    } else {
      assert a + b == b;
    }
  }

  lemma WithoutSingle(e: Entry, id: string)
    ensures Without([e], id) == if e.id == id then [] else [e]
  {
    assert [e][1..] == [];
  }

  /** Filtering out an id no entry has changes nothing. */
  lemma {:induction false} WithoutAbsent(h: seq<Entry>, id: string)
    requires forall i :: 0 <= i < |h| ==> h[i].id != id
    ensures Without(h, id) == h
  {
    if h != [] {
      WithoutAbsent(h[1..], id);
    }
  }

  /** Saving puts the entry first, keeps after it the older entries with
      other ids in their order, and drops only what falls beyond ten. */
  lemma SaveSpec(stored: Option<seq<Entry>>, id: string, name: Option<string>)
    ensures var rest := Without(Get(stored), id);
            var r := Save(stored, id, name);
            && |r| == (if 1 + |rest| <= Capacity then 1 + |rest| else Capacity)
            && r[1..] == rest[..|r| - 1]
  {
    var rest := Without(Get(stored), id);
    var h := [Entry(id, ShownName(id, name))] + rest;
    assert h[1..] == rest;
  }

  /** Exactly one entry of the saved list has the saved id. */
  lemma SavedOnce(stored: Option<seq<Entry>>, id: string, name: Option<string>)
    ensures var r := Save(stored, id, name);
            forall i, j :: 0 <= i < |r| && 0 <= j < |r| && r[i].id == id && r[j].id == id ==> i == j == 0
  {
  }

  /** Saving the same record twice leaves the list saving it once gives. */
  lemma SaveIdempotent(stored: Option<seq<Entry>>, id: string, name: Option<string>)
    ensures Save(Some(Save(stored, id, name)), id, name) == Save(stored, id, name)
  {
    var r := Save(stored, id, name);
    var tail := r[1..];
    assert r == [r[0]] + tail;
    assert forall i :: 0 <= i < |tail| ==> tail[i].id != id;
    WithoutAbsent(tail, id);
    assert Without(r, id) == tail;
  }

  /** Removing twice is removing once; removing an id that is not there
      changes nothing. */
  lemma RemoveIdempotent(stored: Option<seq<Entry>>, id: string)
    ensures Remove(Some(Remove(stored, id)), id) == Remove(stored, id)
    ensures (forall i :: 0 <= i < |Get(stored)| ==> Get(stored)[i].id != id) ==> Remove(stored, id) == Get(stored)
  {
    WithoutAbsent(Remove(stored, id), id);
    if forall i :: 0 <= i < |Get(stored)| ==> Get(stored)[i].id != id {
      WithoutAbsent(Get(stored), id);
    }
  }

  /** Saving into empty storage with no name gives the single record
      `{id, id}`. */
  lemma SaveIntoEmptyExample()
    ensures Save(None, "42", None) == [Entry("42", "42")]
  {
  }
}
