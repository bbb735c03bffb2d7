/** The 8x8 grid that attack geometry works on: squares as (row, column)
    pairs, with row 0 at rank 8 and column 0 at file 'a'. */
module Board {

  /** A grid position (row, col); the source uses a plain integer pair. */
  type Square = (int, int)

  predicate OnBoard(sq: Square)
  {
    0 <= sq.0 < 8 && 0 <= sq.1 < 8
  }

  function Abs(x: int): nat
  {
    if x < 0 then -x else x
  }

  /** No element occurs twice. */
  predicate NoDuplicates<T(==)>(s: seq<T>)
  {
    forall i, j :: 0 <= i < j < |s| ==> s[i] != s[j]
  }

  /** Two sequences share no element. */
  predicate Disjoint<T(==)>(a: seq<T>, b: seq<T>)
  {
    forall x :: x in a ==> x !in b
  }

  lemma NoDuplicatesConcat<T>(a: seq<T>, b: seq<T>)
    ensures NoDuplicates(a + b) <==> NoDuplicates(a) && NoDuplicates(b) && Disjoint(a, b)
  {
    var ab := a + b;
    if NoDuplicates(ab) {
      assert NoDuplicates(a) by {
        forall i, j | 0 <= i < j < |a| ensures a[i] != a[j] {
          assert a[i] == ab[i] && a[j] == ab[j];
        }
      }
      assert NoDuplicates(b) by {
        forall i, j | 0 <= i < j < |b| ensures b[i] != b[j] {
          assert b[i] == ab[|a| + i] && b[j] == ab[|a| + j];
        }
      }
      forall x | x in a ensures x !in b {
        var i :| 0 <= i < |a| && a[i] == x;
        forall j | 0 <= j < |b| ensures b[j] != x {
          assert ab[i] == a[i] && ab[|a| + j] == b[j];
        }
      }
    }
    if NoDuplicates(a) && NoDuplicates(b) && Disjoint(a, b) {
      forall i, j | 0 <= i < j < |ab| ensures ab[i] != ab[j] {
        if j < |a| {
          assert ab[i] == a[i] && ab[j] == a[j];
        } else if |a| <= i {
          assert ab[i] == b[i - |a|] && ab[j] == b[j - |a|];
        } else {
          assert ab[i] == a[i] && ab[j] == b[j - |a|];
          assert a[i] in a;
        }
      }
    }
  }
}
