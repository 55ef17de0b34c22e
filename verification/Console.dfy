/** Byte-granular reads from a device that is read by sectors (cons.c:106-162). */
module Console {
  import opened BitStream

  const SECT_SIZE: nat := 512

  /** The console's READ call: `count` bytes from sector `lbn` on, or an error when
      they are not all on the device. */
  function Dispatch(disk: seq<byte>, count: nat, lbn: nat): (r: (int, seq<byte>))
    ensures r.0 == if count == 0 || lbn * SECT_SIZE + count <= |disk| then count else -1
    ensures r.0 == count ==> |r.1| == count && (count > 0 ==> r.1 == disk[lbn * SECT_SIZE..lbn * SECT_SIZE + count])
  {
    if count == 0 || lbn * SECT_SIZE + count <= |disk| then
      (count, if count == 0 then [] else disk[lbn * SECT_SIZE..lbn * SECT_SIZE + count])
    else (-1, [])
  }

  /** `cons_read`: the bytes at any offset, whatever the alignment. */
  method Read(disk: seq<byte>, count: nat, offset: nat) returns (retval: int, buf: seq<byte>)
    requires |disk| % SECT_SIZE == 0
    ensures retval == if count == 0 || offset + count <= |disk| then count else -1
    ensures retval == count > 0 ==> buf == disk[offset..offset + count]
  {
    hide Dispatch;
    if count % SECT_SIZE == 0 && offset % SECT_SIZE == 0 {
      var r := Dispatch(disk, count, offset / SECT_SIZE);
      return r.0, r.1;
    }
    var bytesleft: nat, blockoffset: nat, lbn: nat := count, offset % SECT_SIZE, offset / SECT_SIZE;
    buf := [];
    while bytesleft > 0
      invariant |buf| + bytesleft == count && blockoffset < SECT_SIZE
      invariant bytesleft > 0 ==> lbn * SECT_SIZE + blockoffset == offset + |buf|
      invariant bytesleft < count ==> offset + |buf| <= |disk| && buf == disk[offset..offset + |buf|]
    {
      var ok, part := ReadPart(disk, bytesleft, blockoffset, lbn);
      if !ok {
        return -1, buf;
      }
      Joined(disk, offset, buf, part);
      buf := buf + part;
      bytesleft := bytesleft - |part|;
      blockoffset := 0;
      lbn := lbn + 1;
    }
    return count, buf;
  }

  /** Lines 126-154: what one sector has of the rest. */
  method ReadPart(disk: seq<byte>, bytesleft: nat, blockoffset: nat, lbn: nat) returns (ok: bool, part: seq<byte>)
    requires |disk| % SECT_SIZE == 0 && bytesleft > 0 && blockoffset < SECT_SIZE
    ensures ok ==> 0 < |part| <= bytesleft && (|part| < bytesleft ==> |part| == SECT_SIZE - blockoffset)
    ensures ok ==> var at := lbn * SECT_SIZE + blockoffset; at + |part| <= |disk| && part == disk[at..at + |part|]
    ensures !ok ==> |disk| <= lbn * SECT_SIZE
  {
    hide Dispatch;
    var r := Dispatch(disk, SECT_SIZE, lbn);
    if r.0 != SECT_SIZE {
      WholeSectors(|disk|, lbn);
      return false, [];
    }
    if blockoffset == 0 && bytesleft >= SECT_SIZE {
      return true, r.1;
    }
    var iosize := bytesleft;
    if blockoffset + iosize >= SECT_SIZE {
      iosize := SECT_SIZE - blockoffset;
    }
    part := r.1[blockoffset..blockoffset + iosize];
    ghost var at := lbn * SECT_SIZE;
    SliceSlice(disk, at, SECT_SIZE, blockoffset, blockoffset + iosize);
    return true, part;
  }

  lemma SliceSlice<T>(s: seq<T>, a: nat, n: nat, x: nat, y: nat)
    requires a + n <= |s| && x <= y <= n
    ensures s[a..a + n][x..y] == s[a + x..a + y]
  {
    var outer, l, r := s[a..a + n], s[a..a + n][x..y], s[a + x..a + y];
    forall i | 0 <= i < |l|
      ensures l[i] == r[i]
    {
      assert l[i] == outer[x + i] == s[a + (x + i)];
    }
  }

  lemma WholeSectors(size: nat, lbn: nat)
    requires size % SECT_SIZE == 0 && lbn * SECT_SIZE + SECT_SIZE > size
    ensures size <= lbn * SECT_SIZE
  {
  }

  lemma Joined(disk: seq<byte>, offset: nat, a: seq<byte>, b: seq<byte>)
    requires offset + |a| + |b| <= |disk|
    requires |a| > 0 ==> a == disk[offset..offset + |a|]
    requires b == disk[offset + |a|..offset + |a| + |b|]
    ensures a + b == disk[offset..offset + |a + b|]
  {
  }
}
