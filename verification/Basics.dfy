// What several modules share.

module Basics {
  datatype Option<+T> = None | Some(value: T)

  const PAGE_SIZE := 4096                 // of a page and of a physical frame
  const U64 := 0x1_0000_0000_0000_0000

  ghost predicate NoDup(q: seq<nat>) {
    forall i, j :: 0 <= i < j < |q| ==> q[i] != q[j]
  }

  // Taking the head of a queue that names nobody twice removes exactly the head.
  lemma HeadTail(q: seq<nat>)
    requires q != [] && NoDup(q)
    ensures NoDup(q[1..]) && q[0] in q
    ensures forall t :: t in q[1..] <==> t in q && t != q[0]
  {
    forall t | t in q && t != q[0] ensures t in q[1..] {
      var i :| 0 <= i < |q| && q[i] == t;
      assert q[1..][i - 1] == t;
    }
  }
}
