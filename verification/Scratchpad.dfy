/** The coordinator's shared scratchpad (dxrk/coordinator.py). */
module Scratchpad {
  // A dictionary in insertion order is bounded by dropping the entry created first. The clock is a
  // parameter. The reference is a plain list of notes without times: drop the head, then update or append.

  import opened Wrappers

  datatype Key = Key(name: string)

  datatype Note = Note(key: Key, value: string, setBy: string)

  datatype Entry = Entry(note: Note, created: int, updated: int)

  ghost predicate UniqueKeys(pad: seq<Entry>) {
    forall i, j :: 0 <= i < j < |pad| ==> pad[i].note.key != pad[j].note.key
  }

  // ----- One write, with times -----

  /** The index of the oldest entry, the first one when several share that age. */
  ghost predicate IsFirstOldest(pad: seq<Entry>, i: nat) {
    && i < |pad|
    && (forall k :: 0 <= k < i ==> pad[i].created < pad[k].created)
    && (forall k :: i <= k < |pad| ==> pad[i].created <= pad[k].created)
  }

  function Oldest(pad: seq<Entry>): (i: nat)
    requires pad != []
    ensures IsFirstOldest(pad, i)
  {
    if |pad| == 1 then 0
    else
      var i := Oldest(pad[1..]);
      if pad[0].created <= pad[1..][i].created then 0 else i + 1
  }

  predicate Full(limit: int, size: nat) {
    size >= limit && size > 0
  }

  function Evicted(limit: int, pad: seq<Entry>): seq<Entry> {
    if Full(limit, |pad|) then pad[..Oldest(pad)] + pad[Oldest(pad) + 1..] else pad
  }

  /** Updates the entry of this key where it stands, or appends a new one. */
  function Upsert(pad: seq<Entry>, n: Note, now: int): seq<Entry> {
    if pad == [] then [Entry(n, now, now)]
    else if pad[0].note.key == n.key then [Entry(n, pad[0].created, now)] + pad[1..]
    else [pad[0]] + Upsert(pad[1..], n, now)
  }

  function Write(limit: int, pad: seq<Entry>, n: Note, now: int): seq<Entry> {
    Upsert(Evicted(limit, pad), n, now)
  }

  /** The dictionary after the update of the entry at i, or with a new entry behind the last. */
  function Placed(pad: seq<Entry>, n: Note, now: int, i: nat): seq<Entry>
    requires i <= |pad|
  {
    if i < |pad| then pad[i := Entry(n, pad[i].created, now)] else pad + [Entry(n, now, now)]
  }

  lemma PlacedBehind(x: Entry, rest: seq<Entry>, n: Note, now: int, i: nat)
    requires i <= |rest|
    ensures Placed([x] + rest, n, now, i + 1) == [x] + Placed(rest, n, now, i)
  {
  }

  lemma UpsertCons(x: Entry, rest: seq<Entry>, n: Note, now: int)
    ensures Upsert([x] + rest, n, now)
         == if x.note.key == n.key then [Entry(n, x.created, now)] + rest else [x] + Upsert(rest, n, now)
  {
    assert ([x] + rest)[1..] == rest;
  }

  /** The two branches of the dictionary update, by position. */
  lemma {:induction false} UpsertAt(pad: seq<Entry>, n: Note, now: int, i: nat)
    requires i <= |pad| && forall k :: 0 <= k < i ==> pad[k].note.key != n.key
    requires i < |pad| ==> pad[i].note.key == n.key
    ensures Upsert(pad, n, now) == Placed(pad, n, now, i)
  {
    if pad != [] {
      assert pad == [pad[0]] + pad[1..];
      UpsertCons(pad[0], pad[1..], n, now);
      if i > 0 {
        UpsertAt(pad[1..], n, now, i - 1);
        PlacedBehind(pad[0], pad[1..], n, now, i - 1);
      }
    }
  }

  lemma UpsertMember(pad: seq<Entry>, n: Note, now: int, i: nat)
    requires i < |Upsert(pad, n, now)|
    ensures var r := Upsert(pad, n, now);
      && (i >= |pad| ==> i == |pad| && r[i] == Entry(n, now, now))
      && (i < |pad| && r[i] != pad[i] ==> pad[i].note.key == n.key && r[i] == Entry(n, pad[i].created, now))
  {
    if pad != [] && pad[0].note.key != n.key && i > 0 {
      UpsertMember(pad[1..], n, now, i - 1);
    }
  }

  lemma {:induction false} UpsertSize(pad: seq<Entry>, n: Note, now: int)
    ensures |pad| <= |Upsert(pad, n, now)| <= |pad| + 1
  {
    if pad != [] && pad[0].note.key != n.key {
      UpsertSize(pad[1..], n, now);
    }
  }

  lemma {:induction false} UpsertKeepsUnique(pad: seq<Entry>, n: Note, now: int)
    requires UniqueKeys(pad)
    ensures UniqueKeys(Upsert(pad, n, now))
  {
    if pad != [] && pad[0].note.key != n.key {
      UpsertKeepsUnique(pad[1..], n, now);
      var r := Upsert(pad[1..], n, now);
      forall k | 0 <= k < |r|
        ensures r[k].note.key != pad[0].note.key
      {
        UpsertMember(pad[1..], n, now, k);
      }
    }
  }

  /** Whatever the clock shows, keys stay unique and the pad never outgrows max(1, limit). */
  lemma WriteKeepsBounds(limit: int, pad: seq<Entry>, n: Note, now: int)
    requires UniqueKeys(pad) && (|pad| <= limit || |pad| <= 1)
    ensures var r := Write(limit, pad, n, now); UniqueKeys(r) && r != [] && (|r| <= limit || |r| == 1)
  {
    UpsertKeepsUnique(Evicted(limit, pad), n, now);
    UpsertSize(Evicted(limit, pad), n, now);
  }

  // ----- Reading -----

  function Lookup(pad: seq<Entry>, key: Key): Option<Entry> {
    if pad == [] then None
    else if pad[0].note.key == key then Some(pad[0])
    else Lookup(pad[1..], key)
  }

  lemma {:induction false} LookupAt(pad: seq<Entry>, i: nat)
    requires UniqueKeys(pad) && i < |pad|
    ensures Lookup(pad, pad[i].note.key) == Some(pad[i])
  {
    if i > 0 {
      LookupAt(pad[1..], i - 1);
    }
  }

  lemma {:induction false} LookupAbsent(pad: seq<Entry>, key: Key)
    requires forall i :: 0 <= i < |pad| ==> pad[i].note.key != key
    ensures Lookup(pad, key) == None
  {
    if pad != [] {
      LookupAbsent(pad[1..], key);
    }
  }

  lemma {:induction false} LookupCut(pad: seq<Entry>, i: nat, key: Key)
    requires UniqueKeys(pad) && i < |pad|
    ensures Lookup(pad[..i] + pad[i + 1..], key)
         == if key == pad[i].note.key then None else Lookup(pad, key)
  {
    var cut := pad[..i] + pad[i + 1..];
    if key == pad[i].note.key {
      LookupAbsent(cut, key);
    } else if i == 0 {
      assert cut == pad[1..];
    } else {
      assert cut[1..] == pad[1..][..i - 1] + pad[1..][i..];
      LookupCut(pad[1..], i - 1, key);
    }
  }

  lemma {:induction false} LookupUpsert(pad: seq<Entry>, n: Note, now: int, key: Key)
    ensures key != n.key ==> Lookup(Upsert(pad, n, now), key) == Lookup(pad, key)
    ensures Lookup(Upsert(pad, n, now), n.key)
         == Some(Entry(n, if Lookup(pad, n.key).Some? then Lookup(pad, n.key).value.created else now, now))
  {
    if pad != [] && pad[0].note.key != n.key {
      LookupUpsert(pad[1..], n, now, key);
      assert Upsert(pad, n, now)[1..] == Upsert(pad[1..], n, now);
    }
  }

  predicate IsEvicted(limit: int, pad: seq<Entry>, key: Key) {
    Full(limit, |pad|) && pad[Oldest(pad)].note.key == key
  }

  /**
   A read after a write: the key just written has the new value; the one evicted key is gone;
   every other entry is as it was. A key that is evicted and written at once counts as new.
   */
  lemma ReadAfterWrite(limit: int, pad: seq<Entry>, n: Note, now: int, key: Key)
    requires UniqueKeys(pad)
    ensures Lookup(Write(limit, pad, n, now), key)
         == if key == n.key then
              Some(Entry(n, if Lookup(pad, key).None? || IsEvicted(limit, pad, key) then now
                            else Lookup(pad, key).value.created, now))
            else if IsEvicted(limit, pad, key) then None
            else Lookup(pad, key)
  {
    LookupUpsert(Evicted(limit, pad), n, now, key);
    if Full(limit, |pad|) {
      LookupCut(pad, Oldest(pad), key);
    }
  }

  lemma WriteIsRead(limit: int, pad: seq<Entry>, n: Note, now: int)
    requires UniqueKeys(pad) && (|pad| <= limit || |pad| <= 1)
    ensures var r := Write(limit, pad, n, now);
      UniqueKeys(r) && (|r| <= limit || |r| <= 1) && Lookup(r, n.key).Some? && Lookup(r, n.key).value.note == n
  {
    WriteKeepsBounds(limit, pad, n, now);
    ReadAfterWrite(limit, pad, n, now, n.key);
  }

  // ----- The reference without times -----

  function Plain(pad: seq<Entry>): seq<Note> {
    if pad == [] then [] else [pad[0].note] + Plain(pad[1..])
  }

  function PutNote(pad: seq<Note>, n: Note): seq<Note> {
    if pad == [] then [n]
    else if pad[0].key == n.key then [n] + pad[1..]
    else [pad[0]] + PutNote(pad[1..], n)
  }

  /** At capacity drop the head; then update in place or append. */
  function Put(limit: int, pad: seq<Note>, n: Note): seq<Note> {
    PutNote(if Full(limit, |pad|) then pad[1..] else pad, n)
  }

  /** Entries were created in list order, none of them after now. */
  ghost predicate InTime(pad: seq<Entry>, now: int) {
    && (forall i, j :: 0 <= i < j < |pad| ==> pad[i].created <= pad[j].created)
    && (forall i :: 0 <= i < |pad| ==> pad[i].created <= now)
  }

  lemma {:induction false} UpsertInTime(pad: seq<Entry>, n: Note, now: int)
    requires InTime(pad, now)
    ensures InTime(Upsert(pad, n, now), now)
  {
    if pad != [] && pad[0].note.key != n.key {
      UpsertInTime(pad[1..], n, now);
      var r := Upsert(pad[1..], n, now);
      forall k | 0 <= k < |r|
        ensures pad[0].created <= r[k].created
      {
        UpsertMember(pad[1..], n, now, k);
      }
    }
  }

  lemma {:induction false} UpsertIsPutNote(pad: seq<Entry>, n: Note, now: int)
    ensures Plain(Upsert(pad, n, now)) == PutNote(Plain(pad), n)
  {
    if pad != [] && pad[0].note.key != n.key {
      UpsertIsPutNote(pad[1..], n, now);
      assert Upsert(pad, n, now)[1..] == Upsert(pad[1..], n, now);
    } else if pad != [] {
      assert Upsert(pad, n, now)[1..] == pad[1..];
    }
  }

  lemma {:induction false} PlainSize(pad: seq<Entry>)
    ensures |Plain(pad)| == |pad|
  {
    if pad != [] {
      PlainSize(pad[1..]);
    }
  }

  lemma EvictedInTime(limit: int, pad: seq<Entry>, now: int)
    requires InTime(pad, now)
    ensures Evicted(limit, pad) == if Full(limit, |pad|) then pad[1..] else pad
    ensures InTime(Evicted(limit, pad), now)
  {
    if Full(limit, |pad|) {
      assert IsFirstOldest(pad, Oldest(pad));
      assert Oldest(pad) == 0;
    }
  }

  lemma WriteRefinesPut(limit: int, pad: seq<Entry>, n: Note, now: int)
    requires InTime(pad, now)
    ensures Plain(Write(limit, pad, n, now)) == Put(limit, Plain(pad), n)
    ensures InTime(Write(limit, pad, n, now), now)
  {
    PlainSize(pad);
    EvictedInTime(limit, pad, now);
    UpsertIsPutNote(Evicted(limit, pad), n, now);
    UpsertInTime(Evicted(limit, pad), n, now);
  }

  /** A full pad whose first entry is the oldest: what a write needs to drop the head. */
  predicate HeadIsOldest(limit: int, pad: seq<Entry>) {
    Full(limit, |pad|) ==> Oldest(pad) == 0
  }

  lemma FirstKeyStays(pad: seq<Note>, n: Note)
    requires pad != []
    ensures PutNote(pad, n) != [] && PutNote(pad, n)[0].key == pad[0].key
  {
  }

  lemma {:induction false} PlainAt(pad: seq<Entry>, i: nat)
    requires i < |pad|
    ensures i < |Plain(pad)| && Plain(pad)[i] == pad[i].note
  {
    if i > 0 {
      PlainAt(pad[1..], i - 1);
    } else {
      PlainSize(pad);
    }
  }

  /** Exactly when a write does what the plain list does, whatever the clock showed. */
  lemma WriteRefinesPutIff(limit: int, pad: seq<Entry>, n: Note, now: int)
    requires UniqueKeys(pad)
    ensures Plain(Write(limit, pad, n, now)) == Put(limit, Plain(pad), n) <==> HeadIsOldest(limit, pad)
  {
    PlainSize(pad);
    UpsertIsPutNote(Evicted(limit, pad), n, now);
    if !Full(limit, |pad|) || Oldest(pad) == 0 {
      assert Full(limit, |pad|) ==> Evicted(limit, pad) == pad[1..];
    } else {
      OtherHeadStays(limit, pad, n);
    }
  }

  /** When another entry than the head goes, the head shows that the lists differ. */
  lemma OtherHeadStays(limit: int, pad: seq<Entry>, n: Note)
    requires UniqueKeys(pad) && Full(limit, |pad|) && Oldest(pad) > 0
    ensures PutNote(Plain(Evicted(limit, pad)), n) != PutNote(Plain(pad)[1..], n)
  {
    var evicted := Evicted(limit, pad);
    assert evicted != [] && evicted[0] == pad[0];
    PlainAt(evicted, 0);
    PlainAt(pad, 1);
    FirstKeyStays(Plain(evicted), n);
    FirstKeyStays(Plain(pad)[1..], n);
    assert pad[0].note.key != pad[1].note.key;
  }

  // ----- Whole runs -----

  datatype Set = Set(note: Note, now: int)

  function PadAfter(limit: int, writes: seq<Set>): seq<Entry> {
    if writes == [] then []
    else
      var last := writes[|writes| - 1];
      Write(limit, PadAfter(limit, writes[..|writes| - 1]), last.note, last.now)
  }

  function NotesAfter(limit: int, writes: seq<Set>): seq<Note> {
    if writes == [] then []
    else Put(limit, NotesAfter(limit, writes[..|writes| - 1]), writes[|writes| - 1].note)
  }

  ghost predicate ClockNeverRunsBack(writes: seq<Set>) {
    forall i, j :: 0 <= i < j < |writes| ==> writes[i].now <= writes[j].now
  }

  lemma {:induction false} PadStaysBounded(limit: int, writes: seq<Set>)
    ensures UniqueKeys(PadAfter(limit, writes))
    ensures |PadAfter(limit, writes)| <= limit || |PadAfter(limit, writes)| <= 1
  {
    if writes != [] {
      var init, last := writes[..|writes| - 1], writes[|writes| - 1];
      PadStaysBounded(limit, init);
      WriteKeepsBounds(limit, PadAfter(limit, init), last.note, last.now);
    }
  }

  lemma InTimeLater(pad: seq<Entry>, now: int, later: int)
    requires InTime(pad, now) && now <= later
    ensures InTime(pad, later)
  {
  }

  lemma {:induction false} PadRefinesNotesAt(limit: int, writes: seq<Set>)
    requires ClockNeverRunsBack(writes)
    ensures Plain(PadAfter(limit, writes)) == NotesAfter(limit, writes)
    ensures writes != [] ==> InTime(PadAfter(limit, writes), writes[|writes| - 1].now)
  {
    if writes != [] {
      var init, last := writes[..|writes| - 1], writes[|writes| - 1];
      PadRefinesNotesAt(limit, init);
      if init != [] {
        InTimeLater(PadAfter(limit, init), init[|init| - 1].now, last.now);
      }
      WriteRefinesPut(limit, PadAfter(limit, init), last.note, last.now);
    }
  }

  /** With a clock that never runs back, every run of the pad is a run of the plain list. */
  lemma PadRefinesNotes(limit: int, writes: seq<Set>)
    requires ClockNeverRunsBack(writes)
    ensures Plain(PadAfter(limit, writes)) == NotesAfter(limit, writes)
  {
    PadRefinesNotesAt(limit, writes);
  }

  /** After the first m writes the pad stands for the plain list. */
  ghost predicate AgreesAt(limit: int, writes: seq<Set>, m: nat)
    requires m <= |writes|
  {
    Plain(PadAfter(limit, writes[..m])) == NotesAfter(limit, writes[..m])
  }

  /** The write m finds the oldest entry at the head, if it has to drop one. */
  ghost predicate MeetsGuard(limit: int, writes: seq<Set>, m: nat)
    requires m < |writes|
  {
    HeadIsOldest(limit, PadAfter(limit, writes[..m]))
  }

  lemma AgreesAtStart(limit: int, writes: seq<Set>)
    ensures AgreesAt(limit, writes, 0)
  {
    assert writes[..0] == [];
  }

  lemma NextAgrees(limit: int, writes: seq<Set>, m: nat)
    requires m < |writes| && AgreesAt(limit, writes, m)
    ensures AgreesAt(limit, writes, m + 1) <==> MeetsGuard(limit, writes, m)
  {
    assert writes[..m + 1] == writes[..m] + [writes[m]];
    OneMoreWrite(limit, writes[..m], writes[m]);
    PadStaysBounded(limit, writes[..m]);
    WriteRefinesPutIff(limit, PadAfter(limit, writes[..m]), writes[m].note, writes[m].now);
  }

  /** Exactly when a run agrees with the plain list all along: every write meets the guard. */
  lemma {:induction false} RunAgreesIff(limit: int, writes: seq<Set>, k: nat)
    requires k <= |writes|
    ensures AgreeUpTo(limit, writes, k) <==> forall m :: 0 <= m < k ==> MeetsGuard(limit, writes, m)
  {
    if k == 0 {
      AgreesAtStart(limit, writes);
    } else {
      RunAgreesIff(limit, writes, k - 1);
      AgreeOneMore(limit, writes, k - 1);
    }
  }

  ghost predicate AgreeUpTo(limit: int, writes: seq<Set>, k: nat)
    requires k <= |writes|
  {
    forall m :: 0 <= m <= k ==> AgreesAt(limit, writes, m)
  }

  lemma AgreeOneMore(limit: int, writes: seq<Set>, k: nat)
    requires k < |writes|
    ensures AgreeUpTo(limit, writes, k + 1) <==> AgreeUpTo(limit, writes, k) && MeetsGuard(limit, writes, k)
  {
    if AgreesAt(limit, writes, k) {
      NextAgrees(limit, writes, k);
    }
  }

  const A := Note(Key("a"), "", "")
  const B := Note(Key("b"), "", "")
  const C := Note(Key("c"), "", "")

  lemma OneMoreWrite(limit: int, writes: seq<Set>, last: Set)
    ensures PadAfter(limit, writes + [last]) == Write(limit, PadAfter(limit, writes), last.note, last.now)
    ensures NotesAfter(limit, writes + [last]) == Put(limit, NotesAfter(limit, writes), last.note)
  {
    assert (writes + [last])[..|writes|] == writes;
  }

  lemma PlainOfTwo(x: Entry, y: Entry)
    ensures Plain([x, y]) == [x.note, y.note]
  {
    assert [x, y][1..] == [y] && [y][1..] == [];
    assert Plain([y]) == [y.note] + Plain([]);
  }

  /** The clock matters: when it steps back between two writes, the third write drops the newer note. */
  lemma ClockStepBackDropsNewer()
    ensures var writes := [Set(A, 1), Set(B, 0), Set(C, 2)];
      Plain(PadAfter(2, writes)) == [A, C] && NotesAfter(2, writes) == [B, C]
  {
    var x, y, z := Set(A, 1), Set(B, 0), Set(C, 2);
    assert A.key.name[0] == 'a' && B.key.name[0] == 'b' && C.key.name[0] == 'c';
    assert [] + [x] == [x] && [x] + [y] == [x, y] && [x, y] + [z] == [x, y, z];
    OneMoreWrite(2, [], x);
    OneMoreWrite(2, [x], y);
    OneMoreWrite(2, [x, y], z);
    var a, b, c := Entry(A, 1, 1), Entry(B, 0, 0), Entry(C, 2, 2);
    UpsertAt([a], B, 0, 1);
    assert Oldest([a, b]) == 1 && [a, b][..1] + [a, b][2..] == [a];
    UpsertAt([a], C, 2, 1);
    PlainOfTwo(a, c);
    NotesOfThree(A, B, C);
  }

  lemma NotesOfThree(a: Note, b: Note, c: Note)
    requires a.key != b.key && b.key != c.key
    ensures Put(2, [], a) == [a] && Put(2, [a], b) == [a, b] && Put(2, [a, b], c) == [b, c]
  {
    assert [a][1..] == [] && [a, b][1..] == [b] && [b][1..] == [];
    assert PutNote([a], b) == [a] + PutNote([], b);
    assert PutNote([b], c) == [b] + PutNote([], c);
  }

  // ----- The program -----

  class Pad {
    const limit: int
    var entries: seq<Entry>

    ghost predicate Valid()
      reads this
    {
      UniqueKeys(entries) && (|entries| <= limit || |entries| <= 1)
    }

    constructor (limit: int)
      ensures Valid() && this.limit == limit && entries == []
    {
      this.limit, entries := limit, [];
    }

    method DropOldest()
      requires Valid() && entries != []
      modifies this
      ensures entries == old(entries)[..Oldest(old(entries))] + old(entries)[Oldest(old(entries)) + 1..]
    {
      var oldest := 0;
      for i := 1 to |entries|
        invariant oldest < i && entries == old(entries)
        invariant forall k :: 0 <= k < oldest ==> entries[oldest].created < entries[k].created
        invariant forall k :: oldest <= k < i ==> entries[oldest].created <= entries[k].created
      {
        if entries[i].created < entries[oldest].created {
          oldest := i;
        }
      }
      assert IsFirstOldest(entries, oldest) && oldest == Oldest(entries);
      entries := entries[..oldest] + entries[oldest + 1..];
    }

    method Set(n: Note, now: int)
      requires Valid()
      modifies this
      ensures Valid()
      ensures entries == Write(limit, old(entries), n, now)
      ensures Lookup(entries, n.key).Some? && Lookup(entries, n.key).value.note == n
    {
      WriteIsRead(limit, entries, n, now);
      if |entries| >= limit {
        if entries != [] {
          DropOldest();
        }
      }
      var i := 0;
      while i < |entries| && entries[i].note.key != n.key
        invariant i <= |entries| && forall k :: 0 <= k < i ==> entries[k].note.key != n.key
      {
        i := i + 1;
      }
      UpsertAt(entries, n, now, i);
      if i < |entries| {
        // The entry object is updated where it is; its creation time stays.
        entries := entries[i := Entry(n, entries[i].created, now)];
      } else {
        entries := entries + [Entry(n, now, now)];
      }
    }

    /** None stands for the error of a missing key. */
    method Get(key: Key) returns (entry: Option<Entry>)
      requires Valid()
      ensures entry == Lookup(entries, key)
    {
      for i := 0 to |entries|
        invariant forall k :: 0 <= k < i ==> entries[k].note.key != key
      {
        if entries[i].note.key == key {
          LookupAt(entries, i);
          return Some(entries[i]);
        }
      }
      LookupAbsent(entries, key);
      return None;
    }
  }

  /** A new pad, driven through any list of writes, holds what the run leaves. */
  method Perform(limit: int, writes: seq<Set>) returns (pad: Pad)
    ensures fresh(pad) && pad.Valid() && pad.limit == limit
    ensures pad.entries == PadAfter(limit, writes)
    ensures ClockNeverRunsBack(writes) ==> Plain(pad.entries) == NotesAfter(limit, writes)
  {
    pad := new Pad(limit);
    for i := 0 to |writes|
      invariant pad.Valid() && fresh(pad) && pad.limit == limit && pad.entries == PadAfter(limit, writes[..i])
    {
      assert writes[..i + 1][..i] == writes[..i];
      pad.Set(writes[i].note, writes[i].now);
    }
    assert writes[..|writes|] == writes;
    if ClockNeverRunsBack(writes) {
      PadRefinesNotes(limit, writes);
    }
  }

  // ----- Sizes -----

  /** How many entries a write leaves; at the limit one goes, also when the key is there already. */
  lemma WriteSize(limit: int, pad: seq<Entry>, n: Note, now: int)
    requires UniqueKeys(pad)
    ensures |pad| < limit ==> |Write(limit, pad, n, now)| == |pad| + if Lookup(pad, n.key).Some? then 0 else 1
    ensures |pad| >= limit && pad != [] ==>
              |Write(limit, pad, n, now)|
              == |pad| - if Lookup(pad, n.key).Some? && pad[Oldest(pad)].note.key != n.key then 1 else 0
  {
    var kept := Evicted(limit, pad);
    UpsertGrows(kept, n, now);
    if Full(limit, |pad|) {
      LookupCut(pad, Oldest(pad), n.key);
    }
  }

  lemma {:induction false} UpsertGrows(pad: seq<Entry>, n: Note, now: int)
    ensures |Upsert(pad, n, now)| == |pad| + if Lookup(pad, n.key).Some? then 0 else 1
  {
    if pad != [] && pad[0].note.key != n.key {
      UpsertGrows(pad[1..], n, now);
    }
  }
}
