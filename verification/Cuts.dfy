/** Cutting a sequence into parts of the same size. */
module Cuts {
  import opened Seqs

  lemma RowsOfGroups(n: nat, a: nat)
    requires n > 0
    ensures n * a == a + (n - 1) * a && (n - 1) * a >= 0
  {
  }

  /** n parts of the given size, in order. */
  function Cut<T>(rows: seq<T>, size: nat, n: nat): (parts: seq<seq<T>>)
    requires |rows| == n * size
    ensures |parts| == n
    decreases n
  {
    if n == 0 then []
    else
      RowsOfGroups(n, size);
      [rows[..size]] + Cut(rows[size..], size, n - 1)
  }

  lemma {:induction false} FlattenInvertsCut<T>(rows: seq<T>, size: nat, n: nat)
    requires |rows| == n * size
    ensures Flatten(Cut(rows, size, n)) == rows
    decreases n
  {
    if n > 0 {
      RowsOfGroups(n, size);
      FlattenInvertsCut(rows[size..], size, n - 1);
      FlattenCons(rows[..size], Cut(rows[size..], size, n - 1));
      assert rows[..size] + rows[size..] == rows;
    }
  }
}
