/** One directory block: a chain of variable-length records in 512 bytes, edited in place. */
module Directory {
  import opened Bytes
  import opened Layout

  const EXT2_FT_REG_FILE: byte := 1
  const EXT2_FT_DIR: byte := 2

  type Name = s: seq<byte> | |s| <= 255

  // ----- one record -----

  /** A header fits at `o`. */
  predicate Fits(o: nat) { o + 12 <= 512 }

  function EntInode(b: Block, o: nat): u32
    requires Fits(o)
  {
    U32At(b, o)
  }

  function RecLen(b: Block, o: nat): u16
    requires Fits(o)
  {
    U16At(b, o + 4)
  }

  function NameLen(b: Block, o: nat): u16
    requires Fits(o)
  {
    U16At(b, o + 6)
  }

  function FileType(b: Block, o: nat): byte
    requires Fits(o)
  {
    b[o + 8]
  }

  /** `get_entry_record_len`: header of 9 bytes plus the name, rounded up to four. */
  function RecordLen(nameLen: nat): (r: nat)
    ensures 9 + nameLen <= r <= 12 + nameLen && r % 4 == 0 && r >= 12
  {
    (9 + nameLen + 3) / 4 * 4
  }

  /** The bytes of a record beyond its name are zero. */
  predicate SlackZero(b: Block, o: nat)
    requires Fits(o) && o + RecLen(b, o) <= 512
  {
    forall i :: o + 9 + NameLen(b, o) <= i < o + RecLen(b, o) ==> b[i] == 0
  }

  /** A sound record: aligned, long enough for its name, inside the block, and without residue when live. */
  predicate Sound(b: Block, o: nat) {
    && Fits(o) && o % 4 == 0 && RecLen(b, o) % 4 == 0
    && NameLen(b, o) <= 255 && RecordLen(NameLen(b, o)) <= RecLen(b, o) && o + RecLen(b, o) <= 512
    && (EntInode(b, o) != 0 ==> SlackZero(b, o))
  }

  function NameAt(b: Block, o: nat): (n: Name)
    requires Sound(b, o)
    ensures |n| == NameLen(b, o)
  {
    b[o + 9..o + 9 + NameLen(b, o)]
  }

  predicate Live(b: Block, o: nat)
    requires Fits(o)
  {
    EntInode(b, o) != 0
  }

  /** From `o` on: sound records ending exactly at byte 512; only the first record of the block may be dead. */
  predicate Chain(b: Block, o: nat)
    decreases 512 - o
  {
    o == 512 || (o < 512 && Sound(b, o) && (Live(b, o) || o == 0) && Chain(b, o + RecLen(b, o)))
  }

  // ----- the ordered list of live entries -----

  datatype Entry = Entry(at: nat, ino: u32, ftype: byte, name: Name)

  function EntryAt(b: Block, o: nat): Entry
    requires Sound(b, o)
  {
    Entry(o, EntInode(b, o), FileType(b, o), NameAt(b, o))
  }

  function Entries(b: Block, o: nat): seq<Entry>
    requires Chain(b, o)
    decreases 512 - o
  {
    if o == 512 then []
    else (if Live(b, o) then [EntryAt(b, o)] else []) + Entries(b, o + RecLen(b, o))
  }

  /** `p` is a record of the chain that starts at `o`. */
  predicate Reaches(b: Block, o: nat, p: nat): (r: bool)
    requires Chain(b, o)
    ensures r ==> o <= p < 512 && Sound(b, p) && Chain(b, p)
    decreases 512 - o
  {
    o < 512 && (o == p || Reaches(b, o + RecLen(b, o), p))
  }

  function EntriesBefore(b: Block, o: nat, p: nat): seq<Entry>
    requires Chain(b, o) && Reaches(b, o, p)
    decreases 512 - o
  {
    if o == p then []
    else (if Live(b, o) then [EntryAt(b, o)] else []) + EntriesBefore(b, o + RecLen(b, o), p)
  }

  lemma {:induction false} EntriesSplit(b: Block, o: nat, p: nat)
    requires Chain(b, o) && Reaches(b, o, p)
    ensures Chain(b, p) && Entries(b, o) == EntriesBefore(b, o, p) + Entries(b, p)
    decreases 512 - o
  {
    hide Entries, EntriesBefore, EntryAt, Sound, RecLen, Live;
    HeadSplit(b, o, p);
    if o != p {
      var next := o + RecLen(b, o);
      EntriesSplit(b, next, p);
      Regroup(LiveEntry(b, o), EntriesBefore(b, next, p), Entries(b, p));
    }
  }

  /** The entry of a record that is live. */
  function LiveEntry(b: Block, o: nat): seq<Entry>
    requires Sound(b, o)
  {
    if Live(b, o) then [EntryAt(b, o)] else []
  }

  lemma HeadSplit(b: Block, o: nat, p: nat)
    requires Chain(b, o) && Reaches(b, o, p)
    ensures Fits(o) && Sound(b, o) && RecLen(b, o) > 0
    ensures o == p ==> EntriesBefore(b, o, p) == []
    ensures o != p ==> var next := o + RecLen(b, o);
      && Chain(b, next) && Reaches(b, next, p) && Entries(b, o) == LiveEntry(b, o) + Entries(b, next)
      && EntriesBefore(b, o, p) == LiveEntry(b, o) + EntriesBefore(b, next, p)
  {
    hide U16At, U32At, SlackZero, EntryAt, EntInode;
  }

  lemma Regroup<T>(x: seq<T>, y: seq<T>, z: seq<T>)
    ensures x + y + z == x + (y + z)
  {}

  function EntriesAfter(b: Block, p: nat): seq<Entry>
    requires Sound(b, p)
  {
    if Chain(b, p + RecLen(b, p)) then Entries(b, p + RecLen(b, p)) else []
  }

  /** Record `p` cuts the list of the block in three. */
  ghost predicate ListSplit(b: Block, p: nat)
    requires Chain(b, 0) && Reaches(b, 0, p)
  {
    && Chain(b, p + RecLen(b, p))
    && Entries(b, 0) == EntriesBefore(b, 0, p) + [EntryAt(b, p)] + EntriesAfter(b, p)
  }

  /** Records that lie wholly in an unchanged part of the block read the same. */
  lemma RecordSame(b: Block, b': Block, o: nat)
    requires Sound(b, o)
    requires forall i :: o <= i < o + RecLen(b, o) ==> b'[i] == b[i]
    ensures Sound(b', o) && RecLen(b', o) == RecLen(b, o) && EntryAt(b', o) == EntryAt(b, o)
    ensures Live(b', o) == Live(b, o)
  {}

  lemma {:induction false} SuffixSame(b: Block, b': Block, o: nat)
    requires Chain(b, o)
    requires forall i :: o <= i < 512 ==> b'[i] == b[i]
    ensures Chain(b', o) && Entries(b', o) == Entries(b, o)
    decreases 512 - o
  {
    hide EntryAt, U16At, U32At, NameAt, RecordLen;
    if o < 512 {
      RecordSame(b, b', o);
      SuffixSame(b, b', o + RecLen(b, o));
    }
  }

  /** Changing the block from record `p` on leaves the records before it alone. */
  lemma {:induction false} PrefixSame(b: Block, b': Block, o: nat, p: nat)
    requires Chain(b, o) && Reaches(b, o, p) && Chain(b', p)
    requires forall i :: o <= i < p ==> b'[i] == b[i]
    ensures Chain(b', o) && Reaches(b', o, p) && EntriesBefore(b', o, p) == EntriesBefore(b, o, p)
    decreases 512 - o
  {
    hide EntryAt, U16At, U32At, NameAt, RecordLen;
    if o != p {
      RecordSame(b, b', o);
      PrefixSame(b, b', o + RecLen(b, o), p);
    }
  }

  // ----- searching -----

  /** The first live record named `name`, or 512: the scan of `read` and `delete`. */
  function FindName(b: Block, o: nat, name: Name): nat
    requires Chain(b, o)
    decreases 512 - o
  {
    if o == 512 then 512
    else if Live(b, o) && NameAt(b, o) == name then o
    else FindName(b, o + RecLen(b, o), name)
  }

  /** The record before `p` in the chain from `o`, or 512 when `p` is the first. */
  function Previous(b: Block, o: nat, prev: nat, p: nat): (r: nat)
    requires Chain(b, o)
    ensures r == prev || Fits(r)
    decreases 512 - o
  {
    if o == p || o == 512 then prev else Previous(b, o + RecLen(b, o), o, p)
  }

  datatype Scan = Duplicate | Hole(at: nat) | NoRoom

  /** The scan of `write`: stop at the name itself, or at the first live record whose slack can hold `need` bytes. */
  function ScanForHole(b: Block, o: nat, name: Name, need: nat): Scan
    requires Chain(b, o)
    decreases 512 - o
  {
    if o == 512 then NoRoom
    else if Live(b, o) && NameAt(b, o) == name then Duplicate
    else if Live(b, o) && RecLen(b, o) - RecordLen(NameLen(b, o)) >= need then Hole(o)
    else ScanForHole(b, o + RecLen(b, o), name, need)
  }

  /** First match in an ordered list of entries. */
  function Lookup(es: seq<Entry>, name: Name): (r: nat)
    ensures r <= |es|
    ensures r < |es| ==> es[r].name == name
    ensures forall i :: 0 <= i < r ==> es[i].name != name
  {
    if es == [] then 0 else if es[0].name == name then 0 else 1 + Lookup(es[1..], name)
  }

  predicate FoundRecord(b: Block, o: nat, p: nat, name: Name)
    requires Chain(b, o)
  {
    Reaches(b, o, p) && Live(b, p) && NameAt(b, p) == name
  }

  lemma {:induction false} FindNameSpec(b: Block, o: nat, name: Name)
    requires Chain(b, o)
    ensures FindName(b, o, name) == 512 ==> Lookup(Entries(b, o), name) == |Entries(b, o)|
    ensures FindName(b, o, name) != 512 ==>
      FoundRecord(b, o, FindName(b, o, name), name) &&
      Lookup(Entries(b, o), name) == |EntriesBefore(b, o, FindName(b, o, name))|
    decreases 512 - o
  {
    hide U16At, U32At, RecordLen, NameAt, FileType, Lookup;
    if o < 512 {
      var next := o + RecLen(b, o);
      var rest := Entries(b, next);
      if Live(b, o) { LookupCons(EntryAt(b, o), rest, name); }
      if !(Live(b, o) && NameAt(b, o) == name) {
        FindNameSpec(b, next, name);
        assert [] + rest == rest;
      }
    } else {
      LookupNil(name);
    }
  }

  lemma LookupCons(e: Entry, es: seq<Entry>, name: Name)
    ensures Lookup([e] + es, name) == if e.name == name then 0 else 1 + Lookup(es, name)
  {
    assert ([e] + es)[1..] == es;
  }

  lemma LookupNil(name: Name)
    ensures Lookup([], name) == 0
  {}

  lemma {:induction false} ScanForHoleSpec(b: Block, o: nat, name: Name, need: nat)
    requires Chain(b, o)
    ensures match ScanForHole(b, o, name, need)
      case Duplicate => exists i :: 0 <= i < |Entries(b, o)| && Entries(b, o)[i].name == name
      case Hole(p) => Reaches(b, o, p) && Live(b, p) && RecordLen(NameLen(b, p)) + need <= RecLen(b, p) &&
        (forall i :: 0 <= i < |EntriesBefore(b, o, p)| ==> EntriesBefore(b, o, p)[i].name != name) &&
        NameAt(b, p) != name
      case NoRoom => forall i :: 0 <= i < |Entries(b, o)| ==> Entries(b, o)[i].name != name
    decreases 512 - o
  {
    hide U16At, U32At, RecordLen, NameAt, FileType;
    if o < 512 {
      var next := o + RecLen(b, o);
      if Live(b, o) && NameAt(b, o) == name {
        assert Entries(b, o)[0].name == name;
      } else {
        ScanForHoleSpec(b, next, name, need);
        match ScanForHole(b, next, name, need)
        case Duplicate =>
          var i :| 0 <= i < |Entries(b, next)| && Entries(b, next)[i].name == name;
          assert Entries(b, o)[|Entries(b, o)| - |Entries(b, next)| + i].name == name;
        case Hole(p) =>
        case NoRoom =>
      }
    }
  }

  // ----- editing -----

  /** The bytes of a record's header and name. */
  function EncEntry(ino: u32, recLen: u16, ftype: byte, name: Name): (r: seq<byte>)
    ensures |r| == 9 + |name|
  {
    Le32(ino) + Le16(recLen) + Le16(|name|) + [ftype] + name
  }

  lemma EncEntryRead(b: Block, o: nat, ino: u32, recLen: u16, ftype: byte, name: Name)
    requires Fits(o) && o + 9 + |name| <= 512 && b[o..o + 9 + |name|] == EncEntry(ino, recLen, ftype, name)
    ensures EntInode(b, o) == ino && RecLen(b, o) == recLen && NameLen(b, o) == |name| && FileType(b, o) == ftype
    ensures b[o + 9..o + 9 + |name|] == name
  {
    var e := EncEntry(ino, recLen, ftype, name);
    Shifted(b, o, e);
    assert U32At(e, 0) == U32At(Le32(ino), 0);
    assert U16At(e, 4) == U16At(Le16(recLen), 0);
    assert U16At(e, 6) == U16At(Le16(|name|), 0);
    assert forall i :: 0 <= i < |e| ==> b[o + i] == e[i];
    assert b[o + 8] == e[8];
    assert b[o + 9..o + 9 + |name|] == b[o..o + 9 + |name|][9..];
  }

  function PutRecLen(b: Block, o: nat, n: u16): Block
    requires Fits(o)
  {
    Splice(b, o + 4, Le16(n))
  }

  lemma PutRecLenRead(b: Block, o: nat, n: u16)
    requires Fits(o)
    ensures var r := PutRecLen(b, o, n);
            RecLen(r, o) == n && EntInode(r, o) == EntInode(b, o) && NameLen(r, o) == NameLen(b, o) &&
            FileType(r, o) == FileType(b, o)
    ensures forall i :: 0 <= i < 512 && i != o + 4 && i != o + 5 ==> PutRecLen(b, o, n)[i] == b[i]
  {
    var r := PutRecLen(b, o, n);
    assert r[o + 4..o + 6] == Le16(n);
    assert U16At(r, o + 4) == U16At(Le16(n), 0);
  }

  /** Where the slack of a record begins, and how long it is. */
  function SlackAt(b: Block, p: nat): nat
    requires Sound(b, p)
  {
    p + RecordLen(NameLen(b, p))
  }

  function SlackLen(b: Block, p: nat): nat
    requires Sound(b, p)
  {
    RecLen(b, p) - RecordLen(NameLen(b, p))
  }

  /** `write`: the new record takes the slack of record `p`, which shrinks to its actual length. */
  function Insert(b: Block, p: nat, ino: u32, ftype: byte, name: Name): Block
    requires Sound(b, p) && RecordLen(|name|) <= SlackLen(b, p)
  {
    PutRecLen(Splice(b, SlackAt(b, p), EncEntry(ino, SlackLen(b, p), ftype, name)), p, RecordLen(NameLen(b, p)))
  }

  /** `delete`: fold record `p` into the one before it and wipe it, or just kill it when it is the first. */
  function Remove(b: Block, p: nat, prev: nat): Block
    requires Sound(b, p) && (prev == 512 || Fits(prev))
  {
    if prev == 512 then Splice(b, p, Le32(0))
    else Splice(PutRecLen(b, prev, (RecLen(b, prev) + RecLen(b, p)) % 0x1_0000), p, seq(9 + NameLen(b, p), i => 0))
  }

  /** What `Insert` writes: the new record in the slack of `p`, and two bytes of `p`'s own header. */
  lemma InsertBytes(b: Block, p: nat, ino: u32, ftype: byte, name: Name)
    requires Sound(b, p) && RecordLen(|name|) <= SlackLen(b, p)
    ensures var b', q := Insert(b, p, ino, ftype, name), SlackAt(b, p);
      && q + 12 <= 512 && b'[q..q + 9 + |name|] == EncEntry(ino, SlackLen(b, p), ftype, name)
      && EntInode(b', p) == EntInode(b, p) && RecLen(b', p) == RecordLen(NameLen(b, p))
      && NameLen(b', p) == NameLen(b, p) && FileType(b', p) == FileType(b, p)
      && (forall i :: 0 <= i < q && i != p + 4 && i != p + 5 ==> b'[i] == b[i])
      && (forall i :: q + 9 + |name| <= i < 512 ==> b'[i] == b[i])
  {
    hide U16At, U32At, RecordLen, EncEntry;
    var q := SlackAt(b, p);
    var b1: Block := Splice(b, q, EncEntry(ino, SlackLen(b, p), ftype, name));
    HeaderSame(b, b1, p);
    PutRecLenRead(b1, p, RecordLen(NameLen(b, p)));
    var b' := Insert(b, p, ino, ftype, name);
    assert b'[q..q + 9 + |name|] == b1[q..q + 9 + |name|];
  }

  lemma InsertRecords(b: Block, p: nat, ino: u32, ftype: byte, name: Name)
    requires Sound(b, p) && Live(b, p) && RecordLen(|name|) <= SlackLen(b, p) && ino != 0
    ensures var b', q := Insert(b, p, ino, ftype, name), SlackAt(b, p);
      && q + 12 <= 512
      && Sound(b', p) && EntryAt(b', p) == EntryAt(b, p) && Live(b', p) && p + RecLen(b', p) == q
      && Sound(b', q) && EntryAt(b', q) == Entry(q, ino, ftype, name) && Live(b', q)
      && q + RecLen(b', q) == p + RecLen(b, p)
    ensures forall i :: 0 <= i < p || p + RecLen(b, p) <= i < 512 ==> Insert(b, p, ino, ftype, name)[i] == b[i]
  {
    hide EntInode, RecLen, NameLen, FileType, Insert, RecordLen, EncEntry, Sound, EntryAt;
    InsertBytes(b, p, ino, ftype, name);
    ShrunkRecord(b, p, ino, ftype, name);
    InsertedRecord(b, p, ino, ftype, name);
    assert Sound(b, p) && p + RecLen(b, p) == SlackAt(b, p) + SlackLen(b, p);
  }

  lemma ShrunkRecord(b: Block, p: nat, ino: u32, ftype: byte, name: Name)
    requires Sound(b, p) && Live(b, p) && RecordLen(|name|) <= SlackLen(b, p)
    ensures var b' := Insert(b, p, ino, ftype, name);
      && Sound(b', p) && EntryAt(b', p) == EntryAt(b, p) && Live(b', p) && p + RecLen(b', p) == SlackAt(b, p)
  {
    hide EntInode, RecLen, NameLen, FileType, Insert, RecordLen, EncEntry;
    InsertBytes(b, p, ino, ftype, name);
    assert NameAt(Insert(b, p, ino, ftype, name), p) == NameAt(b, p);
  }

  lemma InsertedRecord(b: Block, p: nat, ino: u32, ftype: byte, name: Name)
    requires Sound(b, p) && Live(b, p) && RecordLen(|name|) <= SlackLen(b, p) && ino != 0
    ensures var b', q := Insert(b, p, ino, ftype, name), SlackAt(b, p);
      && Sound(b', q) && EntryAt(b', q) == Entry(q, ino, ftype, name) && Live(b', q) && RecLen(b', q) == SlackLen(b, p)
  {
    hide EntInode, RecLen, NameLen, FileType, Insert, RecordLen, EncEntry;
    var b', q := Insert(b, p, ino, ftype, name), SlackAt(b, p);
    InsertBytes(b, p, ino, ftype, name);
    EncEntryRead(b', q, ino, SlackLen(b, p), ftype, name);
    assert NameAt(b', q) == name;
  }

  lemma HeaderSame(b: Block, b': Block, o: nat)
    requires Fits(o) && forall i :: o <= i < o + 9 ==> b'[i] == b[i]
    ensures EntInode(b', o) == EntInode(b, o) && RecLen(b', o) == RecLen(b, o) && NameLen(b', o) == NameLen(b, o)
    ensures FileType(b', o) == FileType(b, o)
  {}

  lemma ListInserted(x: seq<Entry>, y: seq<Entry>, z: seq<Entry>, w: seq<Entry>)
    ensures x + (y + w) == x + y + w && x + (y + (z + w)) == x + y + z + w
  {}

  lemma ChainHead(b: Block, o: nat)
    requires Chain(b, o) && o < 512 && Sound(b, o) && Live(b, o)
    ensures Chain(b, o + RecLen(b, o)) && Entries(b, o) == [EntryAt(b, o)] + Entries(b, o + RecLen(b, o))
  {
    hide U16At, U32At, EntryAt;
  }

  lemma EntriesCons(b: Block, o: nat)
    requires Sound(b, o) && Live(b, o) && Chain(b, o + RecLen(b, o))
    ensures Chain(b, o) && Entries(b, o) == [EntryAt(b, o)] + Entries(b, o + RecLen(b, o))
  {
    hide U16At, U32At, EntryAt;
  }

  /** Inserting puts the new name right after the record that made room; everything else stays, in order. */
  lemma InsertSpec(b: Block, p: nat, ino: u32, ftype: byte, name: Name)
    requires Chain(b, 0) && Reaches(b, 0, p) && Live(b, p) && RecordLen(|name|) <= SlackLen(b, p) && ino != 0
    ensures ListSplit(b, p) && Chain(Insert(b, p, ino, ftype, name), 0)
    ensures Entries(Insert(b, p, ino, ftype, name), 0)
         == EntriesBefore(b, 0, p) + [EntryAt(b, p)] + [Entry(SlackAt(b, p), ino, ftype, name)] + EntriesAfter(b, p)
  {
    hide U16At, U32At, RecordLen, EntryAt, Insert, Live, NameAt, Entries, EntriesBefore, Reaches, Chain;
    var b', q, next := Insert(b, p, ino, ftype, name), SlackAt(b, p), p + RecLen(b, p);
    InsertRecords(b, p, ino, ftype, name);
    EntriesSplit(b, 0, p);
    ChainHead(b, p);
    SuffixSame(b, b', next);
    EntriesCons(b', q);
    EntriesCons(b', p);
    PrefixSame(b, b', 0, p);
    EntriesSplit(b', 0, p);
    ListInserted(EntriesBefore(b, 0, p), [EntryAt(b, p)], [EntryAt(b', q)], Entries(b, next));
  }

  // ----- removing -----

  lemma {:induction false} PreviousSpec(b: Block, o: nat, prev: nat, p: nat)
    requires Chain(b, o) && Reaches(b, o, p)
    ensures var r := Previous(b, o, prev, p);
      if o == p then r == prev && EntriesBefore(b, o, p) == []
      else Reaches(b, o, r) && r + RecLen(b, r) == p &&
           EntriesBefore(b, o, p) == EntriesBefore(b, o, r) + (if Live(b, r) then [EntryAt(b, r)] else [])
    decreases 512 - o
  {
    hide EntryAt, U16At, U32At, NameAt, RecordLen, FileType;
    if o != p {
      var next := o + RecLen(b, o);
      PreviousSpec(b, next, o, p);
      if next == p { assert EntriesBefore(b, o, o) == []; }
    }
  }

  lemma RemoveBytes(b: Block, p: nat, prev: nat)
    requires Sound(b, p) && Live(b, p) && Sound(b, prev) && prev + RecLen(b, prev) == p
    ensures var b' := Remove(b, p, prev);
      && EntInode(b', prev) == EntInode(b, prev) && NameLen(b', prev) == NameLen(b, prev)
      && FileType(b', prev) == FileType(b, prev) && RecLen(b', prev) == RecLen(b, prev) + RecLen(b, p)
      && (forall i :: 0 <= i < p && i != prev + 4 && i != prev + 5 ==> b'[i] == b[i])
      && (forall i :: p <= i < p + 9 + NameLen(b, p) ==> b'[i] == 0)
      && (forall i :: p + 9 + NameLen(b, p) <= i < 512 ==> b'[i] == b[i])
  {
    hide U16At, U32At, RecordLen;
    var n := (RecLen(b, prev) + RecLen(b, p)) % 0x1_0000;
    var b1: Block := PutRecLen(b, prev, n);
    PutRecLenRead(b, prev, n);
    HeaderSame(b1, Remove(b, p, prev), prev);
  }

  lemma RemoveRecord(b: Block, p: nat, prev: nat)
    requires Sound(b, p) && Live(b, p) && Sound(b, prev) && prev + RecLen(b, prev) == p
    ensures var b' := Remove(b, p, prev);
      && Sound(b', prev) && EntryAt(b', prev) == EntryAt(b, prev) && Live(b', prev) == Live(b, prev)
      && prev + RecLen(b', prev) == p + RecLen(b, p)
      && (forall i :: 0 <= i < prev || p + RecLen(b, p) <= i < 512 ==> b'[i] == b[i])
  {
    hide EntInode, RecLen, NameLen, FileType, Remove, RecordLen;
    RemoveBytes(b, p, prev);
    assert NameAt(Remove(b, p, prev), prev) == NameAt(b, prev);
  }

  lemma RemoveFirst(b: Block, p: nat)
    requires Sound(b, p)
    ensures var b' := Remove(b, p, 512);
      && Sound(b', p) && !Live(b', p) && RecLen(b', p) == RecLen(b, p)
      && (forall i :: p + 4 <= i < 512 ==> b'[i] == b[i])
  {
    hide U16At, RecordLen, NameAt;
    var b' := Remove(b, p, 512);
    assert U32At(b', p) == 0 by { assert b'[p..p + 4] == Le32(0); WordRead(b', p, Le32(0)); }
    hide U32At;
    TailSame(b, b', p);
  }

  lemma WordRead(b: Block, o: nat, w: seq<byte>)
    requires o + 4 <= 512 && |w| == 4 && b[o..o + 4] == w
    ensures U32At(b, o) == U32At(w, 0)
  {
    assert forall i :: 0 <= i < 4 ==> b[o + i] == w[i];
  }

  lemma TailSame(b: Block, b': Block, o: nat)
    requires Fits(o) && forall i :: o + 4 <= i < 512 ==> b'[i] == b[i]
    ensures RecLen(b', o) == RecLen(b, o) && NameLen(b', o) == NameLen(b, o)
  {}

  /** Removing a record takes exactly its entry out of the list. */
  lemma RemoveSpec(b: Block, p: nat, prev: nat)
    requires Chain(b, 0) && Reaches(b, 0, p) && Live(b, p) && prev == Previous(b, 0, 512, p)
    ensures ListSplit(b, p) && Chain(Remove(b, p, prev), 0)
    ensures Entries(Remove(b, p, prev), 0) == EntriesBefore(b, 0, p) + EntriesAfter(b, p)
  {
    hide U16At, U32At, RecordLen, EntryAt, Remove, NameAt, Live, Entries, EntriesBefore, Chain, Reaches;
    var next := p + RecLen(b, p);
    PreviousSpec(b, 0, 512, p);
    EntriesSplit(b, 0, p);
    ChainHead(b, p);
    ListInserted(EntriesBefore(b, 0, p), [EntryAt(b, p)], [], Entries(b, next));
    var b' := Remove(b, p, prev);
    if p == 0 {
      RemoveFirst(b, p);
      SuffixSame(b, b', next);
      DeadHead(b');
    } else {
      RemoveRecord(b, p, prev);
      SuffixSame(b, b', next);
      RemovedTail(b, b', prev, next);
      PrefixSame(b, b', 0, prev);
      EntriesSplit(b', 0, prev);
      ListInserted(EntriesBefore(b, 0, prev), if Live(b, prev) then [EntryAt(b, prev)] else [], [], Entries(b, next));
    }
  }

  lemma DeadHead(b: Block)
    requires Sound(b, 0) && !Live(b, 0) && Chain(b, RecLen(b, 0))
    ensures Chain(b, 0) && Entries(b, 0) == Entries(b, RecLen(b, 0))
  {
    hide U16At, U32At, EntryAt;
  }

  lemma RemovedTail(b: Block, b': Block, prev: nat, next: nat)
    requires Chain(b, prev) && prev < 512 && Sound(b, prev) && Sound(b', prev) && Live(b', prev) == Live(b, prev)
    requires EntryAt(b', prev) == EntryAt(b, prev) && prev + RecLen(b', prev) == next && prev < next
    requires Chain(b, next) && Chain(b', next) && Entries(b', next) == Entries(b, next)
    ensures Chain(b', prev)
    ensures Entries(b', prev) == (if Live(b, prev) then [EntryAt(b, prev)] else []) + Entries(b, next)
  {
    hide Sound, U16At, U32At, EntryAt, NameAt, RecordLen, NameLen, FileType;
  }

  // ----- fresh directory blocks -----

  /** The block of a new directory: "." and "..", the second filling the block. */
  function NewDirBlock(self: u32, parent: u32): Block {
    Splice(Splice(ZeroBlock(), 0, EncEntry(self, 12, EXT2_FT_DIR, DOT)), 12, EncEntry(parent, 500, EXT2_FT_DIR, DOTDOT))
  }

  const DOT: Name := [46]
  const DOTDOT: Name := [46, 46]

  /** The block a directory grows by: one record covering it all. */
  function NewEntryBlock(ino: u32, ftype: byte, name: Name): Block {
    Splice(ZeroBlock(), 0, EncEntry(ino, 512, ftype, name))
  }

  lemma ChainEnd(b: Block)
    ensures Chain(b, 512) && Entries(b, 512) == []
  {}

  lemma NewDirBlockSpec(self: u32, parent: u32)
    requires self != 0 && parent != 0
    ensures var b := NewDirBlock(self, parent);
      && Chain(b, 0)
      && Entries(b, 0) == [Entry(0, self, EXT2_FT_DIR, DOT), Entry(12, parent, EXT2_FT_DIR, DOTDOT)]
  {
    hide U16At, U32At, EncEntry;
    var b1: Block := Splice(ZeroBlock(), 0, EncEntry(self, 12, EXT2_FT_DIR, DOT));
    var b := NewDirBlock(self, parent);
    assert b[0..10] == b1[0..10];
    EncEntryRead(b, 0, self, 12, EXT2_FT_DIR, DOT);
    EncEntryRead(b, 12, parent, 500, EXT2_FT_DIR, DOTDOT);
    ChainEnd(b);
    EntriesCons(b, 12);
    EntriesCons(b, 0);
  }

  lemma NewEntryBlockSpec(ino: u32, ftype: byte, name: Name)
    requires ino != 0
    ensures var b := NewEntryBlock(ino, ftype, name);
      Chain(b, 0) && Entries(b, 0) == [Entry(0, ino, ftype, name)]
  {
    hide U16At, U32At, EncEntry;
    var b := NewEntryBlock(ino, ftype, name);
    EncEntryRead(b, 0, ino, 512, ftype, name);
    ChainEnd(b);
    EntriesCons(b, 0);
  }

  // ----- undoing -----

  /** Removing a freshly inserted record restores the block byte for byte. */
  lemma InsertUndone(b: Block, p: nat, ino: u32, ftype: byte, name: Name)
    requires Sound(b, p) && Live(b, p) && RecordLen(|name|) <= SlackLen(b, p) && ino != 0
    ensures var b', q := Insert(b, p, ino, ftype, name), SlackAt(b, p);
      Sound(b', q) && Remove(b', q, p) == b
  {
    hide EntInode, RecLen, NameLen, FileType, Insert, Remove, RecordLen, EncEntry;
    var b', q := Insert(b, p, ino, ftype, name), SlackAt(b, p);
    InsertRecords(b, p, ino, ftype, name);
    InsertBytes(b, p, ino, ftype, name);
    assert |EntryAt(b', q).name| == |name|;
    RemoveBytes(b', q, p);
    var b'' := Remove(b', q, p);
    assert SlackZero(b, p);
    RecLenBytes(b, b'', p);
    forall i | 0 <= i < 512 ensures b''[i] == b[i] {}
  }

  lemma RecLenBytes(b: Block, b': Block, o: nat)
    requires Fits(o) && RecLen(b, o) == RecLen(b', o)
    ensures b[o + 4] == b'[o + 4] && b[o + 5] == b'[o + 5]
  {}
}
