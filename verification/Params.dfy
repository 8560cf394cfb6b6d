/** The kernel's sizes (param.h) and the types all modules share. */
module Params {

  const NPROC: nat := 64
  const NOFILE: nat := 16
  const NFILE: nat := 100
  const MAXARG: nat := 32
  const MAXOPBLOCKS: nat := 10
  const LOGSIZE: nat := MAXOPBLOCKS * 3
  const NBUF: nat := 30 // MAXOPBLOCKS * 3
  const UINT: nat := 0x1_0000_0000

  /** s without its element i. */
  function Without<T>(s: seq<T>, i: nat): seq<T>
    requires i < |s|
  {
    s[..i] + s[i + 1..]
  }

  lemma SubsetSize(a: set<nat>, b: set<nat>)
    requires a <= b
    ensures |a| <= |b|
  {
    assert b == a + (b - a);
  }

  datatype Option<T> = None | Some(value: T)

  /** A definition guarded by Unfold(z) stays folded in a proof until the proof mentions Unfold(0). */
  predicate Unfold(z: nat) {
    z >= 0
  }

  /** The same for a definition whose parts are folded themselves. */
  predicate Expand(z: nat) {
    z >= 0
  }
}
