/** The symbol intern table: open addressing with linear probing, id arrays and the per-
thread string cache in front of it (bootstrap/intern.c:58-193).

The hash is an arbitrary function; a `CString` object stands for a C string whose identity
is its pointer. */
module Intern {
  import opened Bits
  import opened Sets
  import opened Options

  const INITIAL_CAP: nat := 512
  const MAX_INLINE: nat := 15
  const MAX_COUNT: nat := 4096
  const CACHE_SIZE: nat := 256
  const MAX_BYTES: nat := 255

  class CString {
    const text: string

    constructor (s: string)
      ensures text == s
    {
      text := s;
    }
  }

  datatype TableSlot = Empty | Full(hash: nat, canonical: CString, id: int, len: nat, inlined: string)

  datatype InternResult = InternResult(canonical: CString, id: int, hash: nat)

  /** What has been interned: the strings and their canonical copies, in id order. */
  datatype Book = Book(hash: string -> nat, names: seq<string>, canon: seq<CString>)

  ghost predicate BookOk(b: Book) {
    && |b.canon| == |b.names|
    && (forall k :: 0 <= k < |b.names| ==> b.canon[k].text == b.names[k] && |b.names[k]| <= MAX_BYTES)
    && (forall j, k :: 0 <= j < k < |b.names| ==> b.names[j] != b.names[k])
  }

  function EntryFor(str: string, c: CString, id: int, h: nat): (r: TableSlot)
    ensures r.Full?
  {
    Full(h, c, id, |str|, if |str| <= MAX_INLINE then str else "")
  }

  /** The slot `d` places after the home slot of hash `h`. */
  function At(h: nat, d: nat, cap: nat): (r: nat)
    requires IsPow2(cap)
    ensures r < cap
  {
    Slot(h + d, cap)
  }

  lemma NextPlace(h: nat, d: nat, cap: nat)
    requires IsPow2(cap)
    ensures Slot(At(h, d, cap) + 1, cap) == At(h, d + 1, cap)
    ensures At(h, 0, cap) == Slot(h, cap)
  {
    hide Slot, IsPow2;
    var x := h + d;
    SlotBody(x, cap);
    SlotBody(x + 1, cap);
    SlotBody(x % cap + 1, cap);
    RemainderStep(x, cap);
  }

  lemma RemainderStep(x: nat, c: nat)
    requires c >= 1
    ensures (x % c + 1) % c == (x + 1) % c
  {
    DivisionLaw(x, c);
    if x % c + 1 < c {
      RemainderUnique(x + 1, c, x / c, x % c + 1);
    } else {
      Distribute(c, x / c, -1);
      RemainderUnique(x + 1, c, x / c + 1, 0);
    }
  }

  // ----- the table invariant, over the ids already placed -----

  /** Entry `k` sits `dist[k]` places past its home, behind full slots only. */
  ghost predicate Placed(t: seq<TableSlot>, cap: nat, b: Book, dist: seq<int>, k: int)
    requires IsPow2(cap) && |t| == cap && 0 <= k < |b.names| == |b.canon| == |dist|
  {
    var h := b.hash(b.names[k]);
    && 0 <= dist[k] < cap
    && t[At(h, dist[k], cap)] == EntryFor(b.names[k], b.canon[k], k, h)
    && (forall e :: 0 <= e < dist[k] ==> t[At(h, e, cap)].Full?)
  }

  /** The table holds exactly the entries whose ids are in `ids`. */
  ghost predicate Holds(t: seq<TableSlot>, cap: nat, ids: set<int>, b: Book, dist: seq<int>)
    ensures Holds(t, cap, ids, b, dist) ==> IsPow2(cap) && |t| == cap && |dist| == |b.names| == |b.canon|
  {
    && IsPow2(cap) && |t| == cap && |dist| == |b.names| == |b.canon|
    && (forall k :: k in ids ==> 0 <= k < |b.names| && Placed(t, cap, b, dist, k))
    && (forall i :: 0 <= i < cap && t[i].Full? ==>
          t[i].id in ids && i == At(b.hash(b.names[t[i].id]), dist[t[i].id], cap))
  }

  /** With fewer entries than slots every probe sequence meets an empty slot. */
  lemma EmptyAhead(t: seq<TableSlot>, cap: nat, ids: set<int>, b: Book, dist: seq<int>, h: nat) returns (gap: nat)
    requires Holds(t, cap, ids, b, dist) && |ids| < cap
    ensures gap < cap && t[At(h, gap, cap)] == Empty
    ensures forall e :: 0 <= e < gap ==> t[At(h, e, cap)].Full?
  {
    hide At, IsPow2, Placed;
    gap := 0;
    var owners: map<int, int> := map[];
    while t[At(h, gap, cap)].Full?
      invariant gap < cap
      invariant forall e :: 0 <= e < gap ==> t[At(h, e, cap)].Full?
      invariant forall e :: e in owners <==> 0 <= e < gap
      invariant forall e :: e in owners ==> owners[e] == t[At(h, e, cap)].id
      invariant |owners| == gap
      decreases cap - gap
    {
      owners := owners[gap := t[At(h, gap, cap)].id];
      OwnersApart(t, cap, ids, b, dist, h, gap + 1, owners);
      gap := gap + 1;
    }
  }

  /** The first `n` probed slots being full, they belong to `n` different ids. */
  lemma OwnersApart(t: seq<TableSlot>, cap: nat, ids: set<int>, b: Book, dist: seq<int>, h: nat,
                    n: nat, owners: map<int, int>)
    requires Holds(t, cap, ids, b, dist) && n <= cap && |ids| < cap && |owners| == n
    requires forall e :: e in owners <==> 0 <= e < n
    requires forall e :: e in owners ==> t[At(h, e, cap)].Full? && owners[e] == t[At(h, e, cap)].id
    ensures n < cap
  {
    hide IsPow2, Placed, Slot;
    forall x, y | x in owners && y in owners && owners[x] == owners[y] ensures x == y {
      if x < y {
        SlotsApart(h + x, h + y, cap);
      } else if y < x {
        SlotsApart(h + y, h + x, cap);
      }
    }
    InjectiveImage(owners);
    SubsetSize(owners.Values, ids);
  }

  /** Filling the first empty slot of an entry's own probe sequence places it. */
  lemma PlacedAtGap(t: seq<TableSlot>, cap: nat, ids: set<int>, b: Book, dist: seq<int>, k: int, d: nat)
    requires Holds(t, cap, ids, b, dist) && 0 <= k < |b.names| && k !in ids && d < cap
    requires t[At(b.hash(b.names[k]), d, cap)] == Empty
    requires forall e :: 0 <= e < d ==> t[At(b.hash(b.names[k]), e, cap)].Full?
    ensures var h := b.hash(b.names[k]);
            Holds(t[At(h, d, cap) := EntryFor(b.names[k], b.canon[k], k, h)], cap, ids + {k}, b, dist[k := d])
  {
    hide IsPow2, At;
    var h := b.hash(b.names[k]);
    var i := At(h, d, cap);
    var t', dist' := t[i := EntryFor(b.names[k], b.canon[k], k, h)], dist[k := d];
    forall j | j in ids ensures Placed(t', cap, b, dist', j) {
      assert Placed(t, cap, b, dist, j);
    }
    forall e | 0 <= e < d ensures t'[At(h, e, cap)].Full? {
    }
    assert Placed(t', cap, b, dist', k);
  }

  /** A search that walks over full slots to an empty one has not missed the string. */
  lemma NotFound(t: seq<TableSlot>, cap: nat, b: Book, dist: seq<int>, str: string, d: nat)
    requires BookOk(b) && Holds(t, cap, Interval(0, |b.names|), b, dist)
    requires t[At(b.hash(str), d, cap)] == Empty
    requires forall e :: 0 <= e < d ==> !IsEntryOf(t[At(b.hash(str), e, cap)], b.hash(str), str)
    ensures str !in b.names
  {
    hide IsPow2, At;
    forall k | 0 <= k < |b.names| ensures b.names[k] != str {
      var h := b.hash(b.names[k]);
      assert Placed(t, cap, b, dist, k);
      assert IsEntryOf(t[At(h, dist[k], cap)], h, b.names[k]);
    }
  }

  /** The test of the probe loop: length, hash, then the bytes, which short strings keep in
  the entry itself. */
  predicate IsEntryOf(e: TableSlot, h: nat, str: string) {
    && e.Full? && e.len == |str| && e.hash == h
    && (if |str| <= MAX_INLINE then e.inlined else e.canonical.text) == str
  }

  /** A new name leaves the entries of the old ones in place. */
  lemma BookGrows(t: seq<TableSlot>, cap: nat, ids: set<int>, b: Book, dist: seq<int>, str: string, c: CString)
    requires Holds(t, cap, ids, b, dist)
    ensures Holds(t, cap, ids, Extended(b, str, c), dist + [0])
  {
    hide IsPow2, At;
    var b' := Extended(b, str, c);
    forall k | k in ids ensures Placed(t, cap, b', dist + [0], k) {
      assert Placed(t, cap, b, dist, k);
    }
  }

  lemma EmptyTableHolds(t: seq<TableSlot>, cap: nat, b: Book, dist: seq<int>)
    requires IsPow2(cap) && |t| == cap && |dist| == |b.names| == |b.canon|
    requires forall i :: 0 <= i < cap ==> t[i] == Empty
    ensures Holds(t, cap, {}, b, dist)
  {
  }

  /** The id of a string: its place in the order of interning. */
  function IdOf(names: seq<string>, str: string): (k: nat)
    requires str in names
    ensures k < |names| && names[k] == str && forall j :: 0 <= j < k ==> names[j] != str
  {
    if names[0] == str then 0 else 1 + IdOf(names[1..], str)
  }

  lemma IdIs(b: Book, k: nat)
    requires BookOk(b) && k < |b.names|
    ensures IdOf(b.names, b.names[k]) == k
  {
  }

  /** What interning `str` leaves behind: the book only ever grows, by the string itself. */
  function Interned(names: seq<string>, str: string): (r: seq<string>)
    ensures names <= r && str in r
    ensures str in names ==> r == names
  {
    if str in names then names else names + [str]
  }

  // ----- the shared table -----

  /** The id-indexed arrays give each id its canonical copy and hash. */
  ghost predicate IdsOk(canonical: seq<Option<CString>>, hashes: seq<nat>, b: Book) {
    && |b.names| == |b.canon| <= |canonical| == |hashes|
    && (forall k :: 0 <= k < |b.names| ==> canonical[k] == Some(b.canon[k]) && hashes[k] == b.hash(b.names[k]))
  }

  lemma IdsExtended(canonical: seq<Option<CString>>, hashes: seq<nat>, b: Book, str: string, c: CString)
    requires IdsOk(canonical, hashes, b) && |b.names| < |canonical|
    ensures var k := |b.names|;
            IdsOk(canonical[k := Some(c)], hashes[k := b.hash(str)], Extended(b, str, c))
  {
  }

  /** The insertion loop: walks from the home slot to the first empty one. */
  method FindGap(t: array<TableSlot>, cap: nat, h: nat, ghost ids: set<int>, ghost b: Book, ghost dist: seq<int>)
    returns (idx: nat, ghost d: nat)
    requires Holds(t[..], cap, ids, b, dist) && |ids| < cap
    ensures d < cap && idx == At(h, d, cap) && t[idx] == Empty
    ensures forall e :: 0 <= e < d ==> t[..][At(h, e, cap)].Full?
  {
    hide Slot, IsPow2, At, Holds;
    ghost var gap := EmptyAhead(t[..], cap, ids, b, dist, h);
    d := 0;
    idx := Slot(h, cap);
    NextPlace(h, 0, cap);
    while t[idx].Full?
      invariant 0 <= d <= gap && idx == At(h, d, cap)
      invariant forall e :: 0 <= e < d ==> t[..][At(h, e, cap)].Full?
      decreases gap - d
    {
      NextPlace(h, d, cap);
      idx := Slot(idx + 1, cap);
      d := d + 1;
    }
  }

  /** At most three quarters of the slots are taken. */
  predicate Room(cap: nat, size: nat)
    ensures Room(cap, size) ==> 4 * size <= 3 * cap
  {
    cap % 4 == 0 && 4 * size <= 3 * cap
  }

  lemma RoomForOne(cap: nat, size: nat)
    requires Room(cap, size) && 4 * size < 3 * cap
    ensures Room(cap, size + 1)
  {
  }

  method Store<T>(a: array<T>, i: nat, v: T)
    requires i < a.Length
    modifies a
    ensures a[..] == old(a[..])[i := v]
  {
    a[i] := v;
  }

  /** The probe loop: stops at the string's entry or at the first empty slot. */
  method Search(t: array<TableSlot>, cap: nat, str: string, h: nat, ghost b: Book, ghost dist: seq<int>)
    returns (r: Option<InternResult>)
    requires BookOk(b) && Holds(t[..], cap, Interval(0, |b.names|), b, dist) && |b.names| < cap
    requires h == b.hash(str)
    ensures r.Some? <==> str in b.names
    ensures r.Some? ==> r.value == ResultFor(b, str)
  {
    hide Slot, IsPow2, At, Holds, BookOk, ResultFor;
    ghost var gap := EmptyAhead(t[..], cap, Interval(0, |b.names|), b, dist, h);
    ghost var d := 0;
    var idx := Slot(h, cap);
    NextPlace(h, 0, cap);
    while t[idx].Full?
      invariant 0 <= d <= gap && idx == At(h, d, cap)
      invariant forall e :: 0 <= e < d ==> !IsEntryOf(t[..][At(h, e, cap)], h, str)
      decreases gap - d
    {
      if t[idx].len == |str| && t[idx].hash == h {
        var cmp := if |str| <= MAX_INLINE then t[idx].inlined else t[idx].canonical.text;
        if cmp == str {
          MatchMeans(t[..], cap, b, dist, idx, h, str);
          return Some(InternResult(t[idx].canonical, t[idx].id, t[idx].hash));
        }
      }
      NextPlace(h, d, cap);
      idx := Slot(idx + 1, cap);
      d := d + 1;
    }
    NotFound(t[..], cap, b, dist, str, d);
    r := None;
  }

  /** Puts one old entry into the new table. */
  method PutBack(fill: array<TableSlot>, cap: nat, e: TableSlot, ghost ids: set<int>, ghost b: Book,
                 ghost dist: seq<int>)
    returns (ghost moved: seq<int>)
    requires Holds(fill[..], cap, ids, b, dist) && |ids| < cap
    requires e.Full? && 0 <= e.id < |b.names| && e.id !in ids
    requires e == EntryFor(b.names[e.id], b.canon[e.id], e.id, b.hash(b.names[e.id]))
    modifies fill
    ensures Holds(fill[..], cap, ids + {e.id}, b, moved)
  {
    hide Slot, IsPow2, At, Holds;
    var idx, d := FindGap(fill, cap, e.hash, ids, b, dist);
    PlacedAtGap(fill[..], cap, ids, b, dist, e.id, d);
    ghost var before := fill[..];
    fill[idx] := e;
    assert fill[..] == before[idx := e];
    moved := dist[e.id := d];
  }

  /** Where the table keeps the entry with id `k`. */
  ghost function PlaceOf(cap: nat, b: Book, dist: seq<int>, k: int): (r: nat)
    requires IsPow2(cap) && |dist| == |b.names| && 0 <= k < |dist|
    ensures r < cap
  {
    if dist[k] >= 0 then At(b.hash(b.names[k]), dist[k], cap) else 0
  }

  /** The slot at `i` holds the one entry whose place it is. */
  lemma SeenUpTo(t: seq<TableSlot>, cap: nat, b: Book, dist: seq<int>, i: nat)
    requires Holds(t, cap, Interval(0, |b.names|), b, dist) && i < cap
    ensures forall k :: 0 <= k < |b.names| ==> (PlaceOf(cap, b, dist, k) == i <==> t[i].Full? && t[i].id == k)
  {
    forall k | 0 <= k < |b.names| ensures PlaceOf(cap, b, dist, k) == i <==> t[i].Full? && t[i].id == k {
      assert Placed(t, cap, b, dist, k);
    }
  }

  /** The reinsertion loop of `intern_grow`. */
  method Rehash(t: array<TableSlot>, cap: nat, ghost b: Book, ghost dist: seq<int>)
    returns (fill: array<TableSlot>, ghost places: seq<int>)
    requires Holds(t[..], cap, Interval(0, |b.names|), b, dist) && |b.names| < cap
    ensures fresh(fill) && fill.Length == 2 * cap && Holds(fill[..], 2 * cap, Interval(0, |b.names|), b, places)
  {
    hide Slot, IsPow2, At, Holds;
    Doubled(cap);
    fill := new TableSlot[2 * cap](_ => Empty);
    places := dist;
    ghost var ids: set<int>, before := {}, t[..];
    EmptyTableHolds(fill[..], 2 * cap, b, places);
    var i := 0;
    while i < cap
      invariant 0 <= i <= cap && t[..] == before
      invariant Holds(fill[..], 2 * cap, ids, b, places)
      invariant forall k :: k in ids <==> 0 <= k < |b.names| && PlaceOf(cap, b, dist, k) < i
      modifies fill
    {
      SeenUpTo(before, cap, b, dist, i);
      assert before[i] == t[i];
      if t[i].Full? {
        EntryKnown(before, cap, b, dist, i);
        SubsetSize(ids, Interval(0, |b.names|));
        places := PutBack(fill, 2 * cap, t[i], ids, b, places);
        ids := ids + {before[i].id};
      }
      i := i + 1;
    }
    assert ids == Interval(0, |b.names|);
  }

  /** The answer that belongs to a string already in the book. */
  ghost function ResultFor(b: Book, str: string): (r: InternResult)
    requires str in b.names && |b.canon| == |b.names|
  {
    var k := IdOf(b.names, str);
    InternResult(b.canon[k], k, b.hash(str))
  }

  function Extended(b: Book, str: string, c: CString): (r: Book) {
    b.(names := b.names + [str], canon := b.canon + [c])
  }

  /** A new string, entered at the gap of its probe sequence. */
  lemma Entered(t: seq<TableSlot>, cap: nat, b: Book, dist: seq<int>, str: string, c: CString, d: nat)
    requires BookOk(b) && Holds(t, cap, Interval(0, |b.names|), b, dist)
    requires str !in b.names && |str| <= MAX_BYTES && c.text == str && d < cap
    requires t[At(b.hash(str), d, cap)] == Empty
    requires forall e :: 0 <= e < d ==> t[At(b.hash(str), e, cap)].Full?
    ensures var b', k, h := Extended(b, str, c), |b.names|, b.hash(str);
            && BookOk(b') && ResultFor(b', str) == InternResult(c, k, h)
            && Holds(t[At(h, d, cap) := EntryFor(str, c, k, h)], cap, Interval(0, k + 1), b', dist + [d])
  {
    hide Slot, IsPow2, At, Holds;
    var b', k := Extended(b, str, c), |b.names|;
    BookGrows(t, cap, Interval(0, k), b, dist, str, c);
    PlacedAtGap(t, cap, Interval(0, k), b', dist + [0], k, d);
    assert (dist + [0])[k := d] == dist + [d];
    assert Interval(0, k + 1) == Interval(0, k) + {k};
    assert b'.names[k] == str;
    IdIs(b', k);
  }

  /** The slots, the counters and the id arrays all describe the book. */
  ghost predicate Consistent(t: seq<TableSlot>, cap: nat, size: nat, canonical: seq<Option<CString>>,
                             hashes: seq<nat>, b: Book, dist: seq<int>)
  {
    && BookOk(b) && INITIAL_CAP <= cap == |t| && IsPow2(cap)
    && size == |b.names| <= MAX_COUNT == |canonical| == |hashes| && Room(cap, size)
    && IdsOk(canonical, hashes, b)
    && Holds(t, cap, Interval(0, |b.names|), b, dist)
  }

  /** A new string entered in all three arrays. */
  lemma AllExtended(t: seq<TableSlot>, cap: nat, size: nat, canonical: seq<Option<CString>>,
                    hashes: seq<nat>, b: Book, dist: seq<int>, str: string, c: CString, d: nat)
    requires Consistent(t, cap, size, canonical, hashes, b, dist)
    requires str !in b.names && |str| <= MAX_BYTES && c.text == str && d < cap
    requires size < MAX_COUNT && 4 * size < 3 * cap
    requires t[At(b.hash(str), d, cap)] == Empty
    requires forall e :: 0 <= e < d ==> t[At(b.hash(str), e, cap)].Full?
    ensures var b', h := Extended(b, str, c), b.hash(str);
            && ResultFor(b', str) == InternResult(c, size, h)
            && Consistent(t[At(h, d, cap) := EntryFor(str, c, size, h)], cap, size + 1,
                          canonical[size := Some(c)], hashes[size := h], b', dist + [d])
  {
    hide Slot, IsPow2, At, Holds, BookOk, IdsOk, ResultFor, EntryFor;
    RoomForOne(cap, size);
    Entered(t, cap, b, dist, str, c, d);
    IdsExtended(canonical, hashes, b, str, c);
  }

  class Table {
    const hash: string -> nat
    var slots: array<TableSlot>
    var cap: nat
    var size: nat
    var idCanonical: array<Option<CString>>
    var idHash: array<nat>
    var nextId: nat
    ghost var book: Book
    ghost var dist: seq<int>

    ghost predicate Valid()
      reads this, slots, idCanonical, idHash
    {
      && size == nextId && book.hash == hash
      && Consistent(slots[..], cap, size, idCanonical[..], idHash[..], book, dist)
    }

    /** `intern_init`. */
    constructor (hash: string -> nat)
      ensures Valid() && book.names == [] && this.hash == hash
      ensures fresh(slots) && fresh(idCanonical) && fresh(idHash)
    {
      this.hash := hash;
      cap, size, nextId := INITIAL_CAP, 0, 0;
      slots := new TableSlot[INITIAL_CAP](_ => Empty);
      idCanonical := new Option<CString>[MAX_COUNT](_ => None);
      idHash := new nat[MAX_COUNT](_ => 0);
      book, dist := Book(hash, [], []), [];
      new;
      assert Pow2(9) == INITIAL_CAP;
      EmptyTableHolds(slots[..], cap, book, dist);
      assert Interval(0, 0) == {};
    }

    /** `intern_probe_locked`, under either lock. */
    method Probe(str: string, h: nat) returns (r: Option<InternResult>)
      requires Valid() && |str| <= MAX_BYTES && h == hash(str)
      ensures r.Some? <==> str in book.names
      ensures r.Some? ==> r.value == ResultFor(book, str)
    {
      hide Slot, IsPow2, At, Holds, BookOk, IdsOk, ResultFor;
      r := Search(slots, cap, str, h, book, dist);
    }

    /** `intern_grow`: twice the capacity, every entry put back. */
    method Grow()
      requires Valid()
      modifies this
      ensures Valid() && book == old(book) && cap == 2 * old(cap) && fresh(slots)
      ensures idCanonical == old(idCanonical) && idHash == old(idHash)
    {
      hide Slot, IsPow2, At, Holds, BookOk, IdsOk;
      Doubled(cap);
      slots, dist := Rehash(slots, cap, book, dist);
      cap := cap * 2;
    }

    /** The write-locked part of `intern`: probe again, grow if three quarters full, insert
    at the first empty slot. */
    method InsertLocked(str: string, h: nat) returns (r: InternResult)
      requires Valid() && |str| <= MAX_BYTES && h == hash(str)
      requires str in book.names || |book.names| < MAX_COUNT
      modifies this, slots, idCanonical, idHash
      ensures Valid() && idCanonical == old(idCanonical) && idHash == old(idHash)
      ensures slots == old(slots) || fresh(slots)
      ensures book.names == Interned(old(book.names), str)
      ensures old(book.canon) <= book.canon
      ensures str !in old(book.names) ==> fresh(book.canon[|old(book.names)|])
      ensures r == ResultFor(book, str)
    {
      hide Slot, IsPow2, At, Holds;
      var again := Probe(str, h);
      if again.Some? {
        return again.value;
      }
      if size * 4 >= cap * 3 {
        Grow();
      }
      r := Append(str, h);
    }

    /** The insertion itself, into a table that has room. */
    method Append(str: string, h: nat) returns (r: InternResult)
      requires Valid() && |str| <= MAX_BYTES && h == hash(str)
      requires str !in book.names && |book.names| < MAX_COUNT && 4 * size < 3 * cap
      modifies this, slots, idCanonical, idHash
      ensures Valid() && slots == old(slots) && idCanonical == old(idCanonical) && idHash == old(idHash)
      ensures exists c :: book == Extended(old(book), str, c) && fresh(c)
      ensures r == ResultFor(book, str)
    {
      hide Slot, IsPow2, At, Holds, ResultFor, Consistent, EntryFor;
      Known();
      var idx, d := FindGap(slots, cap, h, Interval(0, |book.names|), book, dist);
      var canonical := new CString(str);
      AllExtended(slots[..], cap, size, idCanonical[..], idHash[..], book, dist, str, canonical, d);
      Store(slots, idx, EntryFor(str, canonical, nextId, h));
      Store(idCanonical, nextId, Some(canonical));
      Store(idHash, nextId, h);
      r := InternResult(canonical, nextId, h);
      nextId := nextId + 1;
      size := size + 1;
      book := Extended(book, str, canonical);
      dist := dist + [d];
    }

    lemma Known()
      requires Valid()
      ensures BookOk(book) && INITIAL_CAP <= cap == slots.Length && IsPow2(cap)
      ensures size == |book.names| < cap && 4 * size <= 3 * cap
      ensures idCanonical.Length == MAX_COUNT == idHash.Length
      ensures forall k :: 0 <= k < size ==> idHash[k] == hash(book.names[k])
      ensures Holds(slots[..], cap, Interval(0, |book.names|), book, dist)
    {
    }

    /** `intern_hash_by_id`. */
    method HashById(id: nat) returns (h: nat)
      requires Valid() && id < nextId
      ensures h == hash(book.names[id])
    {
      h := idHash[id];
    }
  }

  lemma MatchMeans(t: seq<TableSlot>, cap: nat, b: Book, dist: seq<int>, i: nat, h: nat, str: string)
    requires BookOk(b) && Holds(t, cap, Interval(0, |b.names|), b, dist) && i < cap
    requires h == b.hash(str) && IsEntryOf(t[i], h, str)
    ensures str in b.names
    ensures ResultFor(b, str) == InternResult(t[i].canonical, t[i].id, t[i].hash)
  {
    EntryKnown(t, cap, b, dist, i);
    IdIs(b, t[i].id);
  }

  lemma EntryKnown(t: seq<TableSlot>, cap: nat, b: Book, dist: seq<int>, i: nat)
    requires Holds(t, cap, Interval(0, |b.names|), b, dist) && i < cap && t[i].Full?
    ensures 0 <= t[i].id < |b.names| && 0 <= dist[t[i].id]
    ensures var k := t[i].id;
            t[i] == EntryFor(b.names[k], b.canon[k], k, b.hash(b.names[k]))
            && At(b.hash(b.names[k]), dist[k], cap) == i
  {
    assert Placed(t, cap, b, dist, t[i].id);
  }

  // ----- one thread's cache in front of the table -----

  datatype CacheEntry = CacheEntry(cPtr: nat, result: Option<InternResult>)

  /** Every remembered answer is the one the book gives for some interned string. */
  ghost predicate CacheOk(c: seq<CacheEntry>, b: Book) {
    |b.canon| == |b.names| &&
    forall i :: 0 <= i < |c| && c[i].result.Some? ==>
      exists k :: 0 <= k < |b.names| && c[i].result.value == InternResult(b.canon[k], k, b.hash(b.names[k]))
  }

  /** Other threads only add to the book, which no cached answer notices. */
  lemma CacheSurvives(c: seq<CacheEntry>, b: Book, b': Book)
    requires CacheOk(c, b) && b.hash == b'.hash && |b'.canon| == |b'.names|
    requires b.names <= b'.names && b.canon <= b'.canon
    ensures CacheOk(c, b')
  {
    forall i | 0 <= i < |c| && c[i].result.Some?
      ensures exists k :: 0 <= k < |b'.names| && c[i].result.value == InternResult(b'.canon[k], k, b'.hash(b'.names[k]))
    {
      var k :| 0 <= k < |b.names| && c[i].result.value == InternResult(b.canon[k], k, b.hash(b.names[k]));
      assert c[i].result.value == InternResult(b'.canon[k], k, b'.hash(b'.names[k]));
    }
  }

  lemma CacheHit(c: seq<CacheEntry>, b: Book, i: nat, str: string)
    requires CacheOk(c, b) && BookOk(b) && i < |c| && c[i].result.Some?
    requires c[i].result.value.canonical.text == str
    ensures str in b.names && c[i].result.value == ResultFor(b, str)
  {
    var k :| 0 <= k < |b.names| && c[i].result.value == InternResult(b.canon[k], k, b.hash(b.names[k]));
    IdIs(b, k);
  }

  lemma CacheUpdated(c: seq<CacheEntry>, b: Book, i: nat, ptr: nat, str: string)
    requires CacheOk(c, b) && BookOk(b) && i < |c| && str in b.names
    ensures CacheOk(c[i := CacheEntry(ptr, Some(ResultFor(b, str)))], b)
  {
    var k := IdOf(b.names, str);
    assert ResultFor(b, str) == InternResult(b.canon[k], k, b.hash(b.names[k]));
  }

  class ThreadCache {
    var entries: array<CacheEntry>

    ghost predicate Valid(b: Book)
      reads this, entries
    {
      entries.Length == CACHE_SIZE && CacheOk(entries[..], b)
    }

    constructor (ghost b: Book)
      requires |b.canon| == |b.names|
      ensures Valid(b) && fresh(entries)
    {
      entries := new CacheEntry[CACHE_SIZE](_ => CacheEntry(0, None));
    }

    /** `intern`: the caller's string, whose bytes are `str`, lies at address `ptr`. */
    method Intern(table: Table, ptr: nat, str: string) returns (r: InternResult)
      requires table.Valid() && Valid(table.book) && |str| <= MAX_BYTES
      requires str in table.book.names || |table.book.names| < MAX_COUNT
      modifies entries, table, table.slots, table.idCanonical, table.idHash
      ensures table.Valid() && Valid(table.book)
      ensures table.book.names == Interned(old(table.book.names), str)
      ensures old(table.book.canon) <= table.book.canon
      ensures r == ResultFor(table.book, str)
    {
      hide BookOk, CacheOk, Holds, ResultFor, Interned;
      var i := (ptr / 16) % CACHE_SIZE;
      TableKnown(table);
      if entries[i].cPtr == ptr && entries[i].result.Some? && entries[i].result.value.canonical.text == str {
        CacheHit(entries[..], table.book, i, str);
        InternedAgain(table.book.names, str);
        return entries[i].result.value;
      }
      var h := table.hash(str);
      var found := table.Probe(str, h);
      if found.Some? {
        CacheUpdated(entries[..], table.book, i, ptr, str);
        entries[i] := CacheEntry(ptr, found);
        InternedAgain(table.book.names, str);
        return found.value;
      }
      ghost var before := table.book;
      r := table.InsertLocked(str, h);
      TableKnown(table);
      InternedAgain(before.names, str);
      CacheSurvives(entries[..], before, table.book);
      CacheUpdated(entries[..], table.book, i, ptr, str);
      entries[i] := CacheEntry(ptr, Some(r));
    }
  }

  lemma InternedAgain(names: seq<string>, str: string)
    ensures str in names ==> Interned(names, str) == names
    ensures names <= Interned(names, str) && str in Interned(names, str)
  {
  }

  lemma TableKnown(table: Table)
    requires table.Valid()
    ensures BookOk(table.book) && |table.book.canon| == |table.book.names| && table.book.hash == table.hash
  {
  }
}
