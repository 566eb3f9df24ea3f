/**
 * The sort orders of the library view ('newest', 'oldest', 'title', 'rating')
 * and a stable insertion sort standing for `Array.prototype.sort` with the
 * screen's comparators. `localeCompare` is modelled as lexicographic order on
 * code points.
 */
module ItemOrder {
  import opened Wrappers
  import opened Shelves

  datatype SortOption = Newest | Oldest | TitleAZ | ByRating

  /** `a.localeCompare(b) <= 0`, as lexicographic order on code points. */
  predicate LexLe(a: string, b: string) {
    a == [] || (b != [] && (a[0] < b[0] || (a[0] == b[0] && LexLe(a[1..], b[1..]))))
  }

  lemma {:induction false} LexLeTotal(a: string, b: string)
    ensures LexLe(a, b) || LexLe(b, a)
  {
    if a != [] && b != [] && a[0] == b[0] {
      LexLeTotal(a[1..], b[1..]);
    }
  }

  lemma {:induction false} LexLeTransitive(a: string, b: string, c: string)
    requires LexLe(a, b) && LexLe(b, c)
    ensures LexLe(a, c)
  {
    if a != [] && a[0] == b[0] && b[0] == c[0] {
      LexLeTransitive(a[1..], b[1..], c[1..]);
    }
  }

  /** `item.userRating || 0` */
  function RatingKey(item: ShelfItem): int {
    item.userRating.GetOr(0)
  }

  /** The comparator of each option returns a non-positive value for `a` before `b`. */
  predicate Precedes(opt: SortOption, a: ShelfItem, b: ShelfItem) {
    match opt
    case Newest => b.addedAt - a.addedAt <= 0
    case Oldest => a.addedAt - b.addedAt <= 0
    case TitleAZ => LexLe(a.title, b.title)
    case ByRating => RatingKey(b) - RatingKey(a) <= 0
  }

  /** Every comparator is a total preorder. */
  lemma PrecedesTotal(opt: SortOption, a: ShelfItem, b: ShelfItem)
    ensures Precedes(opt, a, b) || Precedes(opt, b, a)
  {
    if opt == TitleAZ { LexLeTotal(a.title, b.title); }
  }

  lemma PrecedesTransitive(opt: SortOption, a: ShelfItem, b: ShelfItem, c: ShelfItem)
    requires Precedes(opt, a, b) && Precedes(opt, b, c)
    ensures Precedes(opt, a, c)
  {
    if opt == TitleAZ { LexLeTransitive(a.title, b.title, c.title); }
  }

  predicate Sorted(opt: SortOption, s: seq<ShelfItem>) {
    forall i, j :: 0 <= i < j < |s| ==> Precedes(opt, s[i], s[j])
  }

  /** Places `x` before the first element it precedes, so equal elements keep their order. */
  function Insert(opt: SortOption, x: ShelfItem, s: seq<ShelfItem>): (r: seq<ShelfItem>)
    requires Sorted(opt, s)
    ensures multiset(r) == multiset(s) + multiset{x}
    ensures Sorted(opt, r)
  {
    if s == [] then [x]
    else if Precedes(opt, x, s[0]) then
      assert forall j :: 0 <= j < |s| ==> Precedes(opt, x, s[j]) by {
        forall j | 0 <= j < |s| ensures Precedes(opt, x, s[j]) {
          if j > 0 { PrecedesTransitive(opt, x, s[0], s[j]); }
        }
      }
      [x] + s
    else
      var rest := Insert(opt, x, s[1..]);
      assert s == [s[0]] + s[1..];
      PrecedesTotal(opt, x, s[0]);
      assert forall y :: y in rest ==> Precedes(opt, s[0], y) by {
        forall y | y in rest ensures Precedes(opt, s[0], y) {
          assert y in multiset(rest);
          if y != x {
            assert y in multiset(s[1..]);
            var j :| 0 <= j < |s[1..]| && s[1..][j] == y;
            assert s[j + 1] == y;
          }
        }
      }
      ConsSorted(opt, s[0], rest);
      [s[0]] + rest
  }

  lemma ConsSorted(opt: SortOption, x: ShelfItem, s: seq<ShelfItem>)
    requires Sorted(opt, s) && forall y :: y in s ==> Precedes(opt, x, y)
    ensures Sorted(opt, [x] + s)
  {
    var r := [x] + s;
    forall i, j | 0 <= i < j < |r| ensures Precedes(opt, r[i], r[j]) {
      if i > 0 { assert r[i] == s[i - 1] && r[j] == s[j - 1]; } else { assert r[j] in s; }
    }
  }

  /** `items.sort(comparator)`: a sorted permutation of the items. */
  function SortItems(opt: SortOption, s: seq<ShelfItem>): (r: seq<ShelfItem>)
    ensures multiset(r) == multiset(s)
    ensures |r| == |s|
    ensures Sorted(opt, r)
  {
    if s == [] then []
    else
      assert s == [s[0]] + s[1..];
      var r := Insert(opt, s[0], SortItems(opt, s[1..]));
      assert |r| == |multiset(r)|;
      r
  }
}
