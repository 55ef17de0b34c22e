/** Directory blocks: adding an entry and looking one up (tools/e2lib.c:859-888,
    922-1016), on the bytes of the blocks. */
module Directory {
  import opened BitStream

  const BLOCKSIZE: nat := 1024

  type Blk = s: seq<byte> | |s| == BLOCKSIZE witness seq(BLOCKSIZE, _ => 0)

  // ----- fields -----

  function U16(b: seq<byte>, o: nat): (r: nat)
    requires o + 2 <= |b|
    ensures r < 0x1_0000
  {
    var lo: nat, hi: nat := b[o], b[o + 1];
    lo + 0x100 * hi
  }

  function U32(b: seq<byte>, o: nat): (r: nat)
    requires o + 4 <= |b|
  {
    U16(b, o) + 0x1_0000 * U16(b, o + 2)
  }

  /** They are the 16 and the 32 bits from there on. */
  lemma FieldsAre(b: seq<byte>, o: nat)
    ensures o + 2 <= |b| ==> U16(b, o) == Peek(b, 8 * o, 16)
    ensures o + 4 <= |b| ==> U32(b, o) == Peek(b, 8 * o, 32)
  {
    hide Peek;
    if o + 2 <= |b| {
      PeekTwo(b, o);
    }
    if o + 4 <= |b| {
      PeekFour(b, o);
    }
  }

  function Le16(x: nat): (r: seq<byte>)
    requires x < 0x1_0000
    ensures |r| == 2 && U16(r, 0) == x
  {
    [x % 0x100, x / 0x100]
  }

  function Le32(x: nat): (r: seq<byte>)
    requires x < 0x1_0000_0000
    ensures |r| == 4 && U32(r, 0) == x
  {
    Le16(x % 0x1_0000) + Le16(x / 0x1_0000)
  }

  /** `b` with the bytes `s` stored at `o`. */
  function Put(b: Blk, o: nat, s: seq<byte>): (r: Blk)
    requires o + |s| <= BLOCKSIZE
    ensures forall i :: 0 <= i < BLOCKSIZE ==> r[i] == if o <= i < o + |s| then s[i - o] else b[i]
  {
    b[..o] + s + b[o + |s|..]
  }

  /** The fields of the record at `o`: `inode`, `rec_len`, `name_len`, `name`. */
  function Ino(b: Blk, o: nat): (r: nat)
    requires o + 8 <= BLOCKSIZE
  {
    U32(b, o)
  }

  function RecLen(b: Blk, o: nat): (r: nat)
    requires o + 8 <= BLOCKSIZE
  {
    U16(b, o + 4)
  }

  function NameLen(b: Blk, o: nat): (r: nat)
    requires o + 8 <= BLOCKSIZE
  {
    U16(b, o + 6)
  }

  /** EXT2_DIR_REC_LEN: the header and the name, rounded up to a multiple of four. */
  function Need(namelen: nat): (r: nat)
    ensures namelen + 8 <= r < namelen + 12
  {
    (namelen + 8 + 3) / 4 * 4
  }

  /** It is the least multiple of four with room for eight bytes and the name. */
  lemma NeedIsLeast(namelen: nat, m: nat)
    ensures Need(namelen) % 4 == 0 && namelen + 8 <= Need(namelen)
    ensures m % 4 == 0 && namelen + 8 <= m ==> Need(namelen) <= m
  {
  }

  /** A record lies in the block and has room for its name. */
  predicate Record(b: Blk, o: nat)
  {
    o + 8 <= BLOCKSIZE && o + RecLen(b, o) <= BLOCKSIZE && Need(NameLen(b, o)) <= RecLen(b, o)
  }

  /** From `o` on the records tile the block. */
  predicate Tiled(b: Blk, o: nat)
    decreases BLOCKSIZE - o
  {
    o == BLOCKSIZE || (Record(b, o) && Tiled(b, o + RecLen(b, o)))
  }

  /** A record as a reader sees it; `ino` is zero if it is not in use. */
  datatype Rec = Rec(ino: nat, name: seq<byte>)

  function RecAt(b: Blk, o: nat): (r: Rec)
    requires Record(b, o)
  {
    Rec(Ino(b, o), b[o + 8..o + 8 + NameLen(b, o)])
  }

  /** The records from `o` on. */
  function Recs(b: Blk, o: nat): (r: seq<Rec>)
    requires Tiled(b, o)
    decreases BLOCKSIZE - o
  {
    if o == BLOCKSIZE then [] else [RecAt(b, o)] + Recs(b, o + RecLen(b, o))
  }

  /** Those in use. */
  function Live(recs: seq<Rec>): (r: seq<Rec>)
  {
    if |recs| == 0 then [] else (if recs[0].ino != 0 then [recs[0]] else []) + Live(recs[1..])
  }

  lemma {:induction false} LiveConcat(a: seq<Rec>, c: seq<Rec>)
    ensures Live(a + c) == Live(a) + Live(c)
  {
    if |a| == 0 {
      assert a + c == c;
    } else {
      LiveConcat(a[1..], c);
      assert (a + c)[1..] == a[1..] + c && (a + c)[0] == a[0];
    }
  }

  // ----- a new directory -----

  const DOT: byte := 0x2e
  const LOST_FOUND: seq<byte> := [0x6c, 0x6f, 0x73, 0x74, 0x2b, 0x66, 0x6f, 0x75, 0x6e, 0x64]

  /** The first block of a root directory as mke2fs makes it: inode 2 under its two names,
      and inode 11. */
  function Fresh(): (r: Blk)
  {
    [2, 0, 0, 0, 12, 0, 1, 0, DOT, 0, 0, 0] + [2, 0, 0, 0, 12, 0, 2, 0, DOT, DOT, 0, 0]
    + [11, 0, 0, 0, 0xe8, 3, 10, 0] + LOST_FOUND + seq(982, _ => 0)
  }

  lemma FreshAt(o: nat)
    requires o == 0 || o == 12 || o == 24
    ensures Record(Fresh(), o)
    ensures RecAt(Fresh(), o) == if o == 0 then Rec(2, [DOT]) else if o == 12 then Rec(2, [DOT, DOT]) else Rec(11, LOST_FOUND)
    ensures RecLen(Fresh(), o) == if o == 24 then 1000 else 12
  {
    var b := Fresh();
    if o == 24 {
      assert b[32..42] == LOST_FOUND;
    } else if o == 12 {
      assert b[20..22] == [DOT, DOT];
    } else {
      assert b[8..9] == [DOT];
    }
  }

  lemma FreshRecs()
    ensures Tiled(Fresh(), 0) && Recs(Fresh(), 0) == [Rec(2, [DOT]), Rec(2, [DOT, DOT]), Rec(11, LOST_FOUND)]
  {
    hide Fresh, RecLen, NameLen, RecAt, Need, Record;
    FreshAt(0);
    FreshAt(12);
    FreshAt(24);
    assert Recs(Fresh(), 1024) == [];
    assert Recs(Fresh(), 24) == [Rec(11, LOST_FOUND)] + Recs(Fresh(), 1024);
    assert Recs(Fresh(), 12) == [Rec(2, [DOT, DOT])] + Recs(Fresh(), 24);
  }

  // ----- changing part of a block -----

  /** A walk over the records from `a` comes to `o`. */
  predicate Reaches(b: Blk, a: nat, o: nat)
    decreases BLOCKSIZE - a
  {
    a == o || (a < o && Record(b, a) && Reaches(b, a + RecLen(b, a), o))
  }

  function RecsTo(b: Blk, a: nat, o: nat): (r: seq<Rec>)
    requires Reaches(b, a, o)
    decreases BLOCKSIZE - a
  {
    if a == o then [] else [RecAt(b, a)] + RecsTo(b, a + RecLen(b, a), o)
  }

  lemma {:induction false} ReachesOn(b: Blk, a: nat, o: nat)
    requires Reaches(b, a, o) && Record(b, o)
    ensures Reaches(b, a, o + RecLen(b, o))
    ensures RecsTo(b, a, o + RecLen(b, o)) == RecsTo(b, a, o) + [RecAt(b, o)]
    decreases BLOCKSIZE - a
  {
    hide RecAt, RecLen, NameLen;
    if a < o {
      ReachesOn(b, a + RecLen(b, a), o);
    } else {
      var n := o + RecLen(b, o);
      assert Reaches(b, n, n) && RecsTo(b, n, n) == [];
      assert RecsTo(b, o, n) == [RecAt(b, o)] + RecsTo(b, n, n);
    }
  }

  /** The same bytes are the same record. */
  lemma SameRecord(b: Blk, c: Blk, o: nat, n: nat)
    requires Record(b, o) && o + RecLen(b, o) <= n <= BLOCKSIZE && forall i :: o <= i < n ==> c[i] == b[i]
    ensures Record(c, o) && RecLen(c, o) == RecLen(b, o) && RecAt(c, o) == RecAt(b, o)
  {
  }

  lemma {:induction false} SameAfter(b: Blk, c: Blk, o: nat)
    requires Tiled(b, o) && forall i :: o <= i < BLOCKSIZE ==> c[i] == b[i]
    ensures Tiled(c, o) && Recs(c, o) == Recs(b, o)
    decreases BLOCKSIZE - o
  {
    hide RecAt, RecLen, NameLen;
    if o < BLOCKSIZE {
      SameRecord(b, c, o, BLOCKSIZE);
      SameAfter(b, c, o + RecLen(b, o));
    }
  }

  /** Bytes before `o` are unchanged: so are the records before it. */
  lemma {:induction false} Splice(b: Blk, c: Blk, a: nat, o: nat)
    requires Reaches(b, a, o) && Tiled(c, o) && forall i :: 0 <= i < o && i < BLOCKSIZE ==> c[i] == b[i]
    ensures Tiled(c, a) && Recs(c, a) == RecsTo(b, a, o) + Recs(c, o)
    decreases BLOCKSIZE - a
  {
    hide RecAt, RecLen, NameLen;
    if a < o {
      var next := a + RecLen(b, a);
      ReachesFar(b, next, o);
      SameRecord(b, c, a, next);
      Splice(b, c, next, o);
    }
  }

  lemma ReachesFar(b: Blk, a: nat, o: nat)
    requires Reaches(b, a, o)
    ensures a <= o
  {
  }

  // ----- writing an entry -----

  /** Lines 996-998: number, length and name; `rec_len` is left alone. */
  function SetEntry(b: Blk, o: nat, ino: nat, name: seq<byte>): (r: Blk)
    requires o + Need(|name|) <= BLOCKSIZE && ino < 0x1_0000_0000
  {
    Put(Put(Put(b, o, Le32(ino)), o + 6, Le16(|name|)), o + 8, name)
  }

  lemma SetEntryAt(b: Blk, o: nat, ino: nat, name: seq<byte>, i: nat)
    requires o + Need(|name|) <= BLOCKSIZE && ino < 0x1_0000_0000 && i < BLOCKSIZE
    ensures SetEntry(b, o, ino, name)[i] ==
            if o <= i < o + 4 then Le32(ino)[i - o]
            else if o + 6 <= i < o + 8 then Le16(|name|)[i - (o + 6)]
            else if o + 8 <= i < o + 8 + |name| then name[i - (o + 8)]
            else b[i]
  {
    hide Put, Le32, Le16;
  }

  lemma SameU16(b: seq<byte>, o: nat, c: seq<byte>, p: nat)
    requires o + 2 <= |b| && p + 2 <= |c| && b[o] == c[p] && b[o + 1] == c[p + 1]
    ensures U16(b, o) == U16(c, p)
  {
  }

  /** The record is what was written, and the rest of the block is as before. */
  lemma EntryWritten(b: Blk, o: nat, ino: nat, name: seq<byte>)
    requires o + 8 <= BLOCKSIZE && o + RecLen(b, o) <= BLOCKSIZE && Need(|name|) <= RecLen(b, o) && ino < 0x1_0000_0000
    ensures var c := SetEntry(b, o, ino, name);
            && RecLen(c, o) == RecLen(b, o) && Record(c, o) && RecAt(c, o) == Rec(ino, name)
            && forall i :: 0 <= i < BLOCKSIZE && !(o <= i < o + Need(|name|)) ==> c[i] == b[i]
  {
    hide SetEntry, Le32, Le16, U16, Need;
    var c := SetEntry(b, o, ino, name);
    forall i: nat | i < BLOCKSIZE
      ensures c[i] == if o <= i < o + 4 then Le32(ino)[i - o]
                      else if o + 6 <= i < o + 8 then Le16(|name|)[i - (o + 6)]
                      else if o + 8 <= i < o + 8 + |name| then name[i - (o + 8)]
                      else b[i]
    {
      SetEntryAt(b, o, ino, name, i);
    }
    SameU16(c, o, Le32(ino), 0);
    SameU16(c, o + 2, Le32(ino), 2);
    SameU16(c, o + 4, b, o + 4);
    SameU16(c, o + 6, Le16(|name|), 0);
    assert c[o + 8..o + 8 + |name|] == name;
  }

  /** Lines 945-949: a record that is not in use takes the entry. */
  lemma Reuse(b: Blk, o: nat, ino: nat, name: seq<byte>)
    requires o < BLOCKSIZE && Tiled(b, o) && Need(|name|) <= RecLen(b, o) && ino < 0x1_0000_0000
    ensures var c := SetEntry(b, o, ino, name);
            && Tiled(c, o) && Recs(c, o) == [Rec(ino, name)] + Recs(b, o + RecLen(b, o))
            && RecLen(c, o) == RecLen(b, o)
            && forall i :: 0 <= i < BLOCKSIZE && !(o <= i < o + RecLen(b, o)) ==> c[i] == b[i]
  {
    hide SetEntry, RecAt, RecLen, NameLen, Need;
    EntryWritten(b, o, ino, name);
    SameAfter(b, SetEntry(b, o, ino, name), o + RecLen(b, o));
  }

  /** Lines 958-969: a record in use gives the space behind its name. */
  function Chop(b: Blk, o: nat): (r: Blk)
    requires Record(b, o) && o + Need(NameLen(b, o)) + 8 <= BLOCKSIZE && Need(NameLen(b, o)) <= RecLen(b, o)
  {
    var need := Need(NameLen(b, o));
    Put(Put(b, o + 4, Le16(need)), o + need + 4, Le16(RecLen(b, o) - need))
  }

  lemma Chopped(b: Blk, o: nat)
    requires Record(b, o) && Need(NameLen(b, o)) + 8 <= RecLen(b, o)
    ensures var c, need := Chop(b, o), Need(NameLen(b, o));
            && Record(c, o) && RecAt(c, o) == RecAt(b, o) && RecLen(c, o) == need
            && RecLen(c, o + need) == RecLen(b, o) - need
            && forall i :: 0 <= i < BLOCKSIZE && !(o <= i < o + RecLen(b, o)) ==> c[i] == b[i]
  {
    hide Put, Le16, U16, Need;
    var c, need := Chop(b, o), Need(NameLen(b, o));
    SameU16(c, o + 4, Le16(need), 0);
    SameU16(c, o + need + 4, Le16(RecLen(b, o) - need), 0);
    SameU16(c, o, b, o);
    SameU16(c, o + 2, b, o + 2);
    SameU16(c, o + 6, b, o + 6);
    assert c[o + 8..o + 8 + NameLen(b, o)] == b[o + 8..o + 8 + NameLen(b, o)];
  }

  /** The record at `o` chopped, and the entry put in the space behind it. */
  function AddBehind(b: Blk, o: nat, ino: nat, name: seq<byte>): (r: Blk)
    requires Record(b, o) && Need(NameLen(b, o)) + Need(|name|) <= RecLen(b, o) && ino < 0x1_0000_0000
  {
    SetEntry(Chop(b, o), o + Need(NameLen(b, o)), ino, name)
  }

  lemma ChopAndAdd(b: Blk, o: nat, ino: nat, name: seq<byte>)
    requires o < BLOCKSIZE && Tiled(b, o) && Need(NameLen(b, o)) + Need(|name|) <= RecLen(b, o) && ino < 0x1_0000_0000
    ensures var c := AddBehind(b, o, ino, name);
            && Tiled(c, o) && Recs(c, o) == [RecAt(b, o), Rec(ino, name)] + Recs(b, o + RecLen(b, o))
            && RecLen(c, o) == Need(NameLen(b, o))
            && forall i :: 0 <= i < BLOCKSIZE && !(o <= i < o + RecLen(b, o)) ==> c[i] == b[i]
  {
    hide SetEntry, RecAt, RecLen, NameLen, Need, Chop;
    var need, end := Need(NameLen(b, o)), o + RecLen(b, o);
    Chopped(b, o);
    var d := Chop(b, o);
    EntryWritten(d, o + need, ino, name);
    var c := SetEntry(d, o + need, ino, name);
    SameAfter(b, c, end);
    SameRecord(d, c, o, o + need);
    assert Recs(c, o + need) == [Rec(ino, name)] + Recs(c, end);
  }

  // ----- one more record -----

  /** Of these records, those not in use have shorter names than `n`. */
  ghost predicate SmallDead(p: seq<Rec>, n: nat)
  {
    forall i :: 0 <= i < |p| && p[i].ino == 0 ==> |p[i].name| < n
  }

  lemma SmallDeadConcat(p: seq<Rec>, q: seq<Rec>, n: nat)
    requires SmallDead(p, n) && SmallDead(q, n)
    ensures SmallDead(p + q, n)
  {
  }

  /** `after` is `before` with record `r` put in, or put in place of one not in use; in
      front of it no record that is not in use has a name as long. */
  ghost predicate Inserted(before: seq<Rec>, after: seq<Rec>, r: Rec)
  {
    exists p: seq<Rec>, d: seq<Rec>, s: seq<Rec> :: InsertedAt(before, after, r, p, d, s)
  }

  ghost predicate InsertedAt(before: seq<Rec>, after: seq<Rec>, r: Rec, p: seq<Rec>, d: seq<Rec>, s: seq<Rec>)
  {
    && before == p + d + s && after == p + [r] + s
    && (d == [] || (|d| == 1 && d[0].ino == 0)) && SmallDead(p, |r.name|)
  }

  /** Of the records in use, one more, and the others in their order. */
  lemma InsertedLive(before: seq<Rec>, after: seq<Rec>, r: Rec) returns (i: nat)
    requires Inserted(before, after, r) && r.ino != 0
    ensures i <= |Live(before)| && Live(after) == Live(before)[..i] + [r] + Live(before)[i..]
  {
    hide Live;
    var p, d, s :| InsertedAt(before, after, r, p, d, s);
    LiveConcat(p + d, s);
    LiveConcat(p, d);
    LiveConcat(p + [r], s);
    LiveConcat(p, [r]);
    LiveOne(d);
    LiveOne([r]);
    i := |Live(p)|;
  }

  lemma LiveOne(d: seq<Rec>)
    requires |d| <= 1
    ensures Live(d) == if |d| == 0 || d[0].ino == 0 then [] else d
  {
    if |d| == 1 {
      assert d[1..] == [];
      assert Live(d[1..]) == [];
    }
  }

  /** The number in the first record with a name, in use or not, as the scan finds it. */
  datatype Found = Nothing | Number(ino: nat)

  function First(recs: seq<Rec>, name: seq<byte>): (r: Found)
  {
    if |recs| == 0 then Nothing
    else if recs[0].name == name then Number(recs[0].ino)
    else First(recs[1..], name)
  }

  lemma {:induction false} FirstConcat(a: seq<Rec>, c: seq<Rec>, name: seq<byte>)
    ensures First(a + c, name) == if First(a, name) == Nothing then First(c, name) else First(a, name)
  {
    if |a| == 0 {
      assert a + c == c;
    } else {
      assert (a + c)[1..] == a[1..] + c;
      FirstConcat(a[1..], c, name);
    }
  }

  lemma FirstOne(d: seq<Rec>, name: seq<byte>)
    requires |d| <= 1
    ensures First(d, name) == if |d| == 1 && d[0].name == name then Number(d[0].ino) else Nothing
  {
    if |d| == 1 {
      assert d[1..] == [];
      assert First(d[1..], name) == Nothing;
    }
  }

  /** In a new directory the name is found under its number. */
  lemma FreshFound()
    ensures Tiled(Fresh(), 0) && First(Recs(Fresh(), 0), LOST_FOUND) == Number(11) && First(Recs(Fresh(), 0), [DOT, DOT]) == Number(2)
  {
    hide Fresh, Tiled, Recs, First;
    FreshRecs();
    var a, b, c := [Rec(2, [DOT])], [Rec(2, [DOT, DOT])], [Rec(11, LOST_FOUND)];
    assert a + (b + c) == [Rec(2, [DOT]), Rec(2, [DOT, DOT]), Rec(11, LOST_FOUND)];
    FirstConcat(a, b + c, LOST_FOUND);
    FirstConcat(b, c, LOST_FOUND);
    FirstConcat(a, b + c, [DOT, DOT]);
    FirstConcat(b, c, [DOT, DOT]);
    FirstOne(a, LOST_FOUND);
    FirstOne(b, LOST_FOUND);
    FirstOne(c, LOST_FOUND);
    FirstOne(a, [DOT, DOT]);
    FirstOne(b, [DOT, DOT]);
  }

  lemma {:induction false} FirstNone(p: seq<Rec>, name: seq<byte>)
    requires SmallDead(p, |name|) && forall i :: 0 <= i < |p| && p[i].name == name ==> p[i].ino == 0
    ensures First(p, name) == Nothing
  {
    if |p| > 0 {
      assert p[0].name != name;
      FirstNone(p[1..], name);
    }
  }

  /** A name that no record in use had is found, even if a record not in use has it; a
      name that was found in use is found as before. */
  lemma InsertedFound(before: seq<Rec>, after: seq<Rec>, r: Rec, name: seq<byte>)
    requires Inserted(before, after, r)
    ensures (forall i :: 0 <= i < |before| && before[i].name == r.name ==> before[i].ino == 0) ==>
              First(after, r.name) == Number(r.ino)
    ensures name != r.name && First(before, name) != Nothing && First(before, name).ino != 0 ==> First(after, name) == First(before, name)
  {
    hide First;
    var p, d, s :| InsertedAt(before, after, r, p, d, s);
    if forall i :: 0 <= i < |before| && before[i].name == r.name ==> before[i].ino == 0 {
      assert forall i :: 0 <= i < |p| ==> p[i] == before[i];
      FirstNone(p, r.name);
    }
    FirstSplit(p, d, s, name);
    FirstSplit(p, d, s, r.name);
    FirstSplit(p, [r], s, name);
    FirstSplit(p, [r], s, r.name);
    FirstOne(d, name);
    FirstOne([r], name);
    FirstOne([r], r.name);
  }

  lemma FirstSplit(p: seq<Rec>, d: seq<Rec>, s: seq<Rec>, name: seq<byte>)
    ensures First(p + d + s, name) ==
            if First(p, name) != Nothing then First(p, name)
            else if First(d, name) != Nothing then First(d, name)
            else First(s, name)
  {
    hide First;
    FirstConcat(p + d, s, name);
    FirstConcat(p, d, name);
  }

  // ----- one block -----

  /** The record at `o` cannot take an entry with a name of length `n`. */
  predicate NoRoomAt(b: Blk, o: nat, n: nat)
    requires Record(b, o)
  {
    if Ino(b, o) == 0 then RecLen(b, o) < Need(n) else RecLen(b, o) < Need(NameLen(b, o)) + Need(n)
  }

  predicate NoRoom(b: Blk, o: nat, n: nat)
    requires Tiled(b, o)
    decreases BLOCKSIZE - o
  {
    o == BLOCKSIZE || (NoRoomAt(b, o, n) && NoRoom(b, o + RecLen(b, o), n))
  }

  /** Nor can those before it, from `a` on. */
  predicate NoRoomTo(b: Blk, a: nat, o: nat, n: nat)
    requires Reaches(b, a, o)
    decreases BLOCKSIZE - a
  {
    a == o || (NoRoomAt(b, a, n) && NoRoomTo(b, a + RecLen(b, a), o, n))
  }

  lemma {:induction false} NoRoomToOn(b: Blk, a: nat, o: nat, n: nat)
    requires Reaches(b, a, o) && Record(b, o) && NoRoomTo(b, a, o, n) && NoRoomAt(b, o, n)
    ensures Reaches(b, a, o + RecLen(b, o)) && NoRoomTo(b, a, o + RecLen(b, o), n)
    decreases BLOCKSIZE - a
  {
    hide NoRoomAt, RecLen, NameLen;
    ReachesOn(b, a, o);
    if a < o {
      NoRoomToOn(b, a + RecLen(b, a), o, n);
    }
  }

  /** The entry is in the first record with room for it: in its place, if that was not in
      use, and else behind it, and then it is no longer than its name needs.  Nothing else
      changes. */
  ghost predicate AddedAt(b: Blk, c: Blk, o: nat, r: Rec)
  {
    && Tiled(b, 0) && Tiled(c, 0) && Tiled(b, o) && Reaches(b, 0, o) && Record(b, o) && Tiled(b, o + RecLen(b, o))
    && NoRoomTo(b, 0, o, |r.name|) && !NoRoomAt(b, o, |r.name|)
    && Recs(c, 0) == RecsTo(b, 0, o) + (if Ino(b, o) == 0 then [] else [RecAt(b, o)]) + [r] + Recs(b, o + RecLen(b, o))
    && o + 8 <= BLOCKSIZE && RecLen(c, o) == (if Ino(b, o) == 0 then RecLen(b, o) else Need(NameLen(b, o)))
    && forall i :: 0 <= i < BLOCKSIZE && !(o <= i < o + RecLen(b, o)) ==> c[i] == b[i]
  }

  /** Lines 936-975 and 995-999 for one block: the first place with room. */
  method AddInBlock(b: Blk, name: seq<byte>, ino: nat) returns (found: bool, c: Blk, ghost at: nat)
    requires Tiled(b, 0) && |name| <= 255 && ino < 0x1_0000_0000
    ensures Tiled(c, 0)
    ensures found <==> !NoRoom(b, 0, |name|)
    ensures found ==> AddedAt(b, c, at, Rec(ino, name)) && Inserted(Recs(b, 0), Recs(c, 0), Rec(ino, name))
    ensures !found ==> c == b && SmallDead(Recs(b, 0), |name|)
  {
    hide SmallDead, Recs, RecAt, Need, RecLen, NameLen, Ino, SetEntry, AddBehind, InsertedAt, Inserted, AddedAt, RecsTo;
    var o := 0;
    c := b;
    at := 0;
    NothingDead(b, |name|);
    while o < BLOCKSIZE
      invariant o <= BLOCKSIZE && Tiled(b, o) && Reaches(b, 0, o)
      invariant NoRoom(b, o, |name|) <==> NoRoom(b, 0, |name|)
      invariant SmallDead(RecsTo(b, 0, o), |name|) && NoRoomTo(b, 0, o, |name|)
      decreases BLOCKSIZE - o
    {
      var reclen := RecLen(b, o);
      if Ino(b, o) == 0 && reclen >= Need(|name|) {
        c := SetEntry(b, o, ino, name);
        ReuseInserts(b, o, ino, name);
        return true, c, o;
      }
      if Ino(b, o) != 0 && reclen >= Need(NameLen(b, o)) + Need(|name|) {
        c := AddBehind(b, o, ino, name);
        ChopInserts(b, o, ino, name);
        return true, c, o;
      }
      ReachesOn(b, 0, o);
      NoRoomToOn(b, 0, o, |name|);
      NoRoomSmall(b, o, |name|);
      SmallDeadConcat(RecsTo(b, 0, o), [RecAt(b, o)], |name|);
      o := o + reclen;
    }
    RecsAll(b, 0);
    return false, b, o;
  }

  lemma NothingDead(b: Blk, n: nat)
    ensures Reaches(b, 0, 0) && SmallDead(RecsTo(b, 0, 0), n)
  {
  }

  /** A record that is not in use and has no room for a name has a shorter one. */
  lemma NoRoomSmall(b: Blk, o: nat, n: nat)
    requires Record(b, o) && NoRoomAt(b, o, n)
    ensures SmallDead([RecAt(b, o)], n)
  {
    hide U16, U32;
  }

  lemma {:induction false} RecsAll(b: Blk, a: nat)
    requires Reaches(b, a, BLOCKSIZE)
    ensures Tiled(b, a) && RecsTo(b, a, BLOCKSIZE) == Recs(b, a)
    decreases BLOCKSIZE - a
  {
    hide RecAt, RecLen, NameLen;
    if a < BLOCKSIZE {
      RecsAll(b, a + RecLen(b, a));
    }
  }

  lemma RecsStep(b: Blk, o: nat)
    requires o < BLOCKSIZE && Tiled(b, o)
    ensures Recs(b, o) == [RecAt(b, o)] + Recs(b, o + RecLen(b, o)) && RecAt(b, o).ino == Ino(b, o)
  {
  }

  lemma ReuseInserts(b: Blk, o: nat, ino: nat, name: seq<byte>)
    requires o < BLOCKSIZE && Reaches(b, 0, o) && NoRoomTo(b, 0, o, |name|) && SmallDead(RecsTo(b, 0, o), |name|) && Tiled(b, o) && Ino(b, o) == 0
    requires Need(|name|) <= RecLen(b, o) && ino < 0x1_0000_0000
    ensures var c := SetEntry(b, o, ino, name);
            Tiled(c, 0) && Tiled(b, 0) && AddedAt(b, c, o, Rec(ino, name)) && Inserted(Recs(b, 0), Recs(c, 0), Rec(ino, name))
  {
    hide SmallDead, SetEntry, RecLen, Need, NameLen, RecAt, Recs, RecsTo, Reaches, Ino, NoRoomTo;
    var c := SetEntry(b, o, ino, name);
    RecsStep(b, o);
    Reuse(b, o, ino, name);
    Splice(b, c, 0, o);
    Splice(b, b, 0, o);
    var p, d, s := RecsTo(b, 0, o), [RecAt(b, o)], Recs(b, o + RecLen(b, o));
    assert p + (d + s) == p + d + s && p + ([Rec(ino, name)] + s) == p + [Rec(ino, name)] + s == p + [] + [Rec(ino, name)] + s;
    assert InsertedAt(Recs(b, 0), Recs(c, 0), Rec(ino, name), p, d, s);
  }

  lemma ChopInserts(b: Blk, o: nat, ino: nat, name: seq<byte>)
    requires o < BLOCKSIZE && Reaches(b, 0, o) && NoRoomTo(b, 0, o, |name|) && SmallDead(RecsTo(b, 0, o), |name|) && Tiled(b, o)
    requires Ino(b, o) != 0
    requires Need(NameLen(b, o)) + Need(|name|) <= RecLen(b, o) && ino < 0x1_0000_0000
    ensures var c := AddBehind(b, o, ino, name);
            Tiled(c, 0) && Tiled(b, 0) && AddedAt(b, c, o, Rec(ino, name)) && Inserted(Recs(b, 0), Recs(c, 0), Rec(ino, name))
  {
    hide AddBehind, RecLen, Need, NameLen, RecAt, Recs, RecsTo, Reaches, Ino, NoRoomTo;
    RecsStep(b, o);
    var c := AddBehind(b, o, ino, name);
    ChopAndAdd(b, o, ino, name);
    Splice(b, c, 0, o);
    Splice(b, b, 0, o);
    var q, p, s := RecsTo(b, 0, o), RecsTo(b, 0, o) + [RecAt(b, o)], Recs(b, o + RecLen(b, o));
    assert q + ([RecAt(b, o)] + s) == p + [] + s;
    assert q + ([RecAt(b, o), Rec(ino, name)] + s) == p + [Rec(ino, name)] + s;
    assert InsertedAt(Recs(b, 0), Recs(c, 0), Rec(ino, name), p, [], s);
  }

  /** Lines 870-882: the scan of one block. */
  method ScanBlock(b: Blk, name: seq<byte>) returns (r: Found)
    requires Tiled(b, 0)
    ensures r == First(Recs(b, 0), name)
  {
    hide RecLen, NameLen, Ino, Need;
    var o := 0;
    while o < BLOCKSIZE
      invariant o <= BLOCKSIZE && Tiled(b, o)
      invariant First(Recs(b, o), name) == First(Recs(b, 0), name)
      decreases BLOCKSIZE - o
    {
      if NameLen(b, o) == |name| && b[o + 8..o + 8 + |name|] == name {
        return Number(Ino(b, o));
      }
      o := o + RecLen(b, o);
    }
    return Nothing;
  }

  // ----- the directory -----

  ghost predicate DirTiled(dir: seq<Blk>)
  {
    forall i :: 0 <= i < |dir| ==> Tiled(dir[i], 0)
  }

  ghost function DirRecs(dir: seq<Blk>): (r: seq<Rec>)
    requires DirTiled(dir)
  {
    if |dir| == 0 then [] else DirRecs(dir[..|dir| - 1]) + Recs(dir[|dir| - 1], 0)
  }

  lemma {:induction false} DirRecsUpdate(dir: seq<Blk>, k: nat, c: Blk, r: Rec)
    requires DirTiled(dir) && k < |dir| && Tiled(c, 0) && Inserted(Recs(dir[k], 0), Recs(c, 0), r)
    requires forall i :: 0 <= i < k ==> SmallDead(Recs(dir[i], 0), |r.name|)
    ensures DirTiled(dir[k := c]) && Inserted(DirRecs(dir), DirRecs(dir[k := c]), r)
    decreases |dir|
  {
    hide Recs, Inserted, Tiled, SmallDead;
    var n := |dir| - 1;
    var dir' := dir[k := c];
    if k == n {
      assert dir'[..n] == dir[..n];
      DirSmallDead(dir[..n], |r.name|);
      InsertedBehind(DirRecs(dir[..n]), Recs(dir[n], 0), Recs(c, 0), r);
    } else {
      assert dir'[..n] == dir[..n][k := c];
      DirRecsUpdate(dir[..n], k, c, r);
      InsertedBefore(DirRecs(dir[..n]), DirRecs(dir'[..n]), Recs(dir[n], 0), r);
    }
  }

  lemma {:induction false} DirSmallDead(dir: seq<Blk>, n: nat)
    requires DirTiled(dir) && forall i :: 0 <= i < |dir| ==> SmallDead(Recs(dir[i], 0), n)
    ensures SmallDead(DirRecs(dir), n)
    decreases |dir|
  {
    hide Tiled, Recs;
    if |dir| > 0 {
      DirSmallDead(dir[..|dir| - 1], n);
    }
  }

  lemma InsertedBehind(q: seq<Rec>, before: seq<Rec>, after: seq<Rec>, r: Rec)
    requires Inserted(before, after, r) && SmallDead(q, |r.name|)
    ensures Inserted(q + before, q + after, r)
  {
    var p, d, s :| InsertedAt(before, after, r, p, d, s);
    assert q + (p + d + s) == (q + p) + d + s && q + (p + [r] + s) == (q + p) + [r] + s;
    assert InsertedAt(q + before, q + after, r, q + p, d, s);
  }

  lemma InsertedBefore(before: seq<Rec>, after: seq<Rec>, t: seq<Rec>, r: Rec)
    requires Inserted(before, after, r)
    ensures Inserted(before + t, after + t, r)
  {
    var p, d, s :| InsertedAt(before, after, r, p, d, s);
    assert (p + d + s) + t == p + d + (s + t) && (p + [r] + s) + t == p + [r] + (s + t);
    assert InsertedAt(before + t, after + t, r, p, d, s + t);
  }

  /** The block for an entry that fits nowhere (lines 1004-1012): the buffer is as the
      search left it, and one record has all of it. */
  function NewBlock(buf: Blk, ino: nat, name: seq<byte>): (r: Blk)
    requires |name| <= 255 && ino < 0x1_0000_0000
  {
    Put(SetEntry(buf, 0, ino, name), 4, Le16(BLOCKSIZE))
  }

  lemma NewBlockRecs(buf: Blk, ino: nat, name: seq<byte>)
    requires |name| <= 255 && ino < 0x1_0000_0000
    ensures var c := NewBlock(buf, ino, name);
            Tiled(c, 0) && Recs(c, 0) == [Rec(ino, name)]
  {
    hide SetEntry, Le32, Le16, U16, Need;
    var b := SetEntry(buf, 0, ino, name);
    var c := NewBlock(buf, ino, name);
    forall i: nat | i < BLOCKSIZE
      ensures b[i] == if i < 4 then Le32(ino)[i]
                      else if 6 <= i < 8 then Le16(|name|)[i - 6]
                      else if 8 <= i < 8 + |name| then name[i - 8]
                      else buf[i]
    {
      SetEntryAt(buf, 0, ino, name, i);
    }
    SameU16(c, 0, Le32(ino), 0);
    SameU16(c, 2, Le32(ino), 2);
    SameU16(c, 4, Le16(BLOCKSIZE), 0);
    SameU16(c, 6, Le16(|name|), 0);
    assert c[8..8 + |name|] == name;
    assert Recs(c, BLOCKSIZE) == [];
  }

  /** Every record of every block is too small. */
  ghost predicate DirFull(dir: seq<Blk>, n: nat)
    requires DirTiled(dir)
  {
    forall i :: 0 <= i < |dir| ==> NoRoom(dir[i], 0, n)
  }

  /** In a block of zeros the record that a scan comes to next is the one it is at, at
      every offset, so that it stays at the first and never reaches the end. */
  lemma ZerosNotTiled(b: Blk)
    requires forall i :: 0 <= i < BLOCKSIZE ==> b[i] == 0
    ensures forall o: nat :: o + 8 <= BLOCKSIZE ==> o + RecLen(b, o) == o
    ensures !Tiled(b, 0)
  {
    assert RecLen(b, 0) == 0;
  }

  lemma InsertedAtEnd(recs: seq<Rec>, r: Rec)
    requires SmallDead(recs, |r.name|)
    ensures Inserted(recs, recs + [r], r)
  {
    assert recs == recs + [] + [] && recs + [r] == recs + [r] + [];
    assert InsertedAt(recs, recs + [r], r, recs, [], []);
  }

  lemma {:induction false} DirPrefix(dir: seq<Blk>, k: nat, name: seq<byte>)
    requires DirTiled(dir) && k <= |dir| && First(DirRecs(dir[..k]), name) != Nothing
    ensures First(DirRecs(dir), name) == First(DirRecs(dir[..k]), name)
    decreases |dir|
  {
    hide Tiled, Recs, First;
    if k < |dir| {
      var n := |dir| - 1;
      assert dir[..n][..k] == dir[..k];
      DirPrefix(dir[..n], k, name);
      FirstConcat(DirRecs(dir[..n]), Recs(dir[n], 0), name);
    } else {
      assert dir[..k] == dir;
    }
  }
}
