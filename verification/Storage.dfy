/** Byte-addressed storage, as the download engine and the write pipeline see it.

    A disk maps the file offsets written so far to bytes. `AsyncStorage::write_at` is allowed to write
    short: it may persist any prefix of the data it is given, and an error may leave
    any prefix behind as well. */
module ByteStore {

  newtype byte = x: int | 0 <= x < 256

  type Bytes = seq<byte>

  datatype Disk = Disk(bytes: map<nat, byte>)

  datatype Option<+T> = None | Some(value: T)

  /** The disk after `data` has been persisted at `pos`. */
  function Overlay(d: Disk, pos: nat, data: Bytes): Disk
    decreases |data|
  {
    if |data| == 0 then d else Overlay(Disk(d.bytes[pos := data[0]]), pos + 1, data[1..])
  }

  /** `Overlay` is the plain pointwise update of the range `[pos, pos + |data|)`. */
  lemma {:induction false} OverlayAt(d: Disk, pos: nat, data: Bytes)
    ensures var r := Overlay(d, pos, data);
            && (forall p: nat :: p in r.bytes <==> p in d.bytes || pos <= p < pos + |data|)
            && (forall p | p in r.bytes :: r.bytes[p] == if pos <= p < pos + |data| then data[p - pos] else d.bytes[p])
    decreases |data|
  {
    if |data| == 0 {
    } else {
      var e, tail := Disk(d.bytes[pos := data[0]]), data[1..];
      OverlayAt(e, pos + 1, tail);
      var r := Overlay(d, pos, data);
      assert r == Overlay(e, pos + 1, tail);
      forall p: nat | p in r.bytes
        ensures r.bytes[p] == if pos <= p < pos + |data| then data[p - pos] else d.bytes[p]
      {
        if pos + 1 <= p < pos + |data| {
          assert tail[p - pos - 1] == data[p - pos];
        }
      }
    }
  }

  /** The same at one offset. */
  lemma OverlayPoint(d: Disk, pos: nat, data: Bytes, p: nat)
    ensures var r := Overlay(d, pos, data).bytes;
            if pos <= p < pos + |data| then p in r && r[p] == data[p - pos]
            else (p in r <==> p in d.bytes) && (p in r ==> r[p] == d.bytes[p])
  {
    hide Overlay;
    OverlayAt(d, pos, data);
    assert p in Overlay(d, pos, data).bytes <==> p in d.bytes || pos <= p < pos + |data|;
  }

  /** The two disks agree on offset `p`. */
  predicate SameAt(d: Disk, e: Disk, p: nat) {
    (p in d.bytes <==> p in e.bytes) && (p in d.bytes ==> d.bytes[p] == e.bytes[p])
  }

  lemma OverlayNothing(d: Disk, pos: nat)
    ensures Overlay(d, pos, []) == d
  {
  }

  /** Persisting two adjacent pieces one after the other is persisting their concatenation. */
  lemma {:induction false} OverlayAppend(d: Disk, pos: nat, x: Bytes, y: Bytes)
    ensures Overlay(Overlay(d, pos, x), pos + |x|, y) == Overlay(d, pos, x + y)
    decreases |x|
  {
    if |x| == 0 {
      assert x + y == y;
    } else {
      OverlayAppend(Disk(d.bytes[pos := x[0]]), pos + 1, x[1..], y);
      assert (x + y)[1..] == x[1..] + y;
    }
  }

  datatype WriteResult = Wrote(n: nat) | WriteFailed

  /** A storage backend shared by everyone who holds a reference to it. */
  class Storage {
    var content: Disk

    constructor ()
      ensures content == Disk(map[])
    {
      content := Disk(map[]);
    }

    /** Persists some prefix of `data`; `n` tells how long it was, also when the write fails. */
    method WriteAt(pos: nat, data: Bytes) returns (r: WriteResult, ghost n: nat)
      modifies this
      ensures n <= |data| && content == Overlay(old(content), pos, data[..n])
      ensures r.Wrote? ==> r.n == n
    {
      var k: nat :| k <= |data|;
      content := Overlay(content, pos, data[..k]);
      n := k;
      if * {
        r := Wrote(k);
      } else {
        r := WriteFailed;
      }
    }
  }
}
