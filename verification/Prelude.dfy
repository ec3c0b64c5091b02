/** What several modules share. */
module Prelude {
  datatype Option<T> = None | Some(value: T)

  /** kernel/param.h: the most blocks that a file system operation may log. */
  const MAXOPBLOCKS: nat := 10

  lemma SubsetCard<T>(a: set<T>, b: set<T>)
    requires a <= b
    ensures |a| <= |b|
  {
    assert b == a + (b - a);
  }
}
