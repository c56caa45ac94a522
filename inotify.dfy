/** The part of the Linux inotify interface (inotify(7)) that the recursive
    watcher relies on: event masks as 32-bit words, the three flag constants it
    needs, and the event record delivered for a watched path.
    The Go package that supplies these is not part of this model; only its
    constants and the shape of its events are. */
module Inotify {

  /** A position in a 32-bit event mask. */
  type BitIndex = bv5

  /** Bit `k` of mask `m` is set. This is the reference meaning of a mask
      against which the bitwise tests of the watcher are stated. */
  predicate BitSet(m: bv32, k: BitIndex) {
    (m >> k) & 1 == 1
  }

  // Flag values fixed by the Linux inotify interface.
  const IN_CREATE: bv32 := 0x100
  const IN_DELETE_SELF: bv32 := 0x400
  const IN_ISDIR: bv32 := 0x4000_0000

  // The bit position that each of those flags occupies.
  const CreateBit: BitIndex := 8
  const DeleteSelfBit: BitIndex := 10
  const IsDirBit: BitIndex := 30

  /** One notification: the path it concerns and its mask of event kinds. */
  datatype Event = Event(name: string, mask: bv32)

  lemma OrAt(a: bv32, b: bv32, k: BitIndex)
    ensures BitSet(a | b, k) <==> BitSet(a, k) || BitSet(b, k)
  {
  }

  lemma AndAt(a: bv32, b: bv32, k: BitIndex)
    ensures BitSet(a & b, k) <==> BitSet(a, k) && BitSet(b, k)
  {
  }

  /** The lowest set bit of `m` at or above position `from`; it exists as long
      as `m` still has a set bit there. */
  function LowestSetBit(m: bv32, from: BitIndex): (k: BitIndex)
    requires m >> from != 0
    ensures from <= k && BitSet(m, k)
    decreases 31 - from as int
  {
    if BitSet(m, from) then from
    else LowestSetBit(m, from + 1)
  }

  /** Two masks share a set bit exactly when their bitwise and is not
      zero. */
  lemma AndNonZero(a: bv32, b: bv32)
    ensures a & b != 0 <==> exists k: BitIndex :: BitSet(a, k) && BitSet(b, k)
  {
    if a & b != 0 {
      var k := LowestSetBit(a & b, 0);
      AndAt(a, b, k);
    } else {
      forall k: BitIndex ensures !(BitSet(a, k) && BitSet(b, k)) {
        AndAt(a, b, k);
      }
    }
  }

  /** Each named flag is the single bit at its position. */
  lemma FlagsAreSingleBits(k: BitIndex)
    ensures BitSet(IN_CREATE, k) <==> k == CreateBit
    ensures BitSet(IN_DELETE_SELF, k) <==> k == DeleteSelfBit
    ensures BitSet(IN_ISDIR, k) <==> k == IsDirBit
  {
  }
}
