/** The dirty-position set: a sorted set of positions iterated in
    ascending row-major order, represented as a strictly ascending
    sequence (which is what a tree set presents to its iterator). */
module PositionSet {
  import opened Geometry

  /** Strictly ascending in row-major order, hence also free of duplicates. */
  predicate Ascending(s: seq<Position>) {
    forall i, j :: 0 <= i < j < |s| ==> Before(s[i], s[j])
  }

  /** Gluing two ascending runs, the first wholly before the second. */
  lemma {:induction false} AscendingConcat(a: seq<Position>, b: seq<Position>)
    requires Ascending(a) && Ascending(b)
    requires forall x, y :: x in a && y in b ==> Before(x, y)
    ensures Ascending(a + b)
  {
    var s := a + b;
    forall i, j | 0 <= i < j < |s|
      ensures Before(s[i], s[j])
    {
      if j < |a| {
        assert s[i] == a[i] && s[j] == a[j];
      } else if i >= |a| {
        assert s[i] == b[i - |a|] && s[j] == b[j - |a|];
      } else {
        assert s[i] == a[i] && s[j] == b[j - |a|];
        assert s[i] in a && s[j] in b;
      }
    }
  }

  /** The head of an ascending sequence comes before everything in its tail. */
  lemma HeadBeforeTail(s: seq<Position>, q: Position)
    requires Ascending(s) && |s| > 0 && q in s[1..]
    ensures Before(s[0], q)
  {
    var k :| 0 <= k < |s[1..]| && s[1..][k] == q;
    assert s[k + 1] == q;
  }

  /** Adding a position (the tree set's `add`): the element set grows by
      exactly `p`, and the order is kept. */
  function Insert(s: seq<Position>, p: Position): (r: seq<Position>)
    ensures forall q :: q in r <==> q in s || q == p
    ensures Ascending(s) ==> Ascending(r)
    decreases |s|
  {
    if s == [] then [p]
    else if s[0] == p then s
    else if Before(p, s[0]) then
      var r := [p] + s;
      assert Ascending(s) ==> Ascending(r) by {
        if Ascending(s) {
          forall q | q in s ensures Before(p, q) {
            if q != s[0] {
              assert q in s[1..] by {
                var k :| 0 <= k < |s| && s[k] == q;
                assert s[1..][k - 1] == q;
              }
              HeadBeforeTail(s, q);
            }
          }
          AscendingConcat([p], s);
        }
      }
      r
    else
      var tail := Insert(s[1..], p);
      var r := [s[0]] + tail;
      assert forall q :: q in s <==> q == s[0] || q in s[1..] by {
        assert s == [s[0]] + s[1..];
      }
      assert Ascending(s) ==> Ascending(r) by {
        if Ascending(s) {
          assert Ascending(s[1..]) by {
            forall i, j | 0 <= i < j < |s[1..]| ensures Before(s[1..][i], s[1..][j]) {
              assert s[1..][i] == s[i + 1] && s[1..][j] == s[j + 1];
            }
          }
          forall q | q in tail ensures Before(s[0], q) {
            if q == p {
              BeforeTotal(p, s[0]);
            } else {
              HeadBeforeTail(s, q);
            }
          }
          AscendingConcat([s[0]], tail);
        }
      }
      r
  }

  /** Keeping only the positions that satisfy `keep`, in their order. */
  function Filter(s: seq<Position>, keep: Position -> bool): (r: seq<Position>)
    ensures forall q :: q in r <==> q in s && keep(q)
    ensures Ascending(s) ==> Ascending(r)
    decreases |s|
  {
    if s == [] then []
    else
      var tail := Filter(s[1..], keep);
      var r := (if keep(s[0]) then [s[0]] else []) + tail;
      assert forall q :: q in s <==> q == s[0] || q in s[1..] by {
        assert s == [s[0]] + s[1..];
      }
      assert Ascending(s) ==> Ascending(r) by {
        if Ascending(s) {
          assert Ascending(s[1..]) by {
            forall i, j | 0 <= i < j < |s[1..]| ensures Before(s[1..][i], s[1..][j]) {
              assert s[1..][i] == s[i + 1] && s[1..][j] == s[j + 1];
            }
          }
          forall x, y | x in (if keep(s[0]) then [s[0]] else []) && y in tail
            ensures Before(x, y)
          {
            HeadBeforeTail(s, y);
          }
          AscendingConcat(if keep(s[0]) then [s[0]] else [], tail);
        }
      }
      r
  }

  /** Without its head, an ascending sequence holds exactly the other elements. */
  lemma TailElements(s: seq<Position>)
    requires Ascending(s) && |s| > 0
    ensures forall q :: q in s[1..] <==> q in s && q != s[0]
  {
    assert s == [s[0]] + s[1..];
    forall q | q in s[1..] ensures q != s[0] {
      HeadBeforeTail(s, q);
    }
  }

  lemma EmptyHasNoElements(s: seq<Position>)
    ensures s == [] <==> forall q :: q !in s
  {
    if s != [] {
      assert s[0] in s;
    }
  }

  /** A sorted set has one representation: two ascending sequences with the
      same elements are the same sequence. */
  lemma {:induction false} AscendingUnique(a: seq<Position>, b: seq<Position>)
    requires Ascending(a) && Ascending(b)
    requires forall q :: q in a <==> q in b
    ensures a == b
    decreases |a|
  {
    if a == [] || b == [] {
      EmptyHasNoElements(a);
      EmptyHasNoElements(b);
    } else {
      if a[0] != b[0] {
        assert a[0] in b && b[0] in a;
        TailElements(a);
        TailElements(b);
        HeadBeforeTail(b, a[0]);
        HeadBeforeTail(a, b[0]);
        assert false;
      }
      TailElements(a);
      TailElements(b);
      assert Ascending(a[1..]) by {
        forall i, j | 0 <= i < j < |a[1..]| ensures Before(a[1..][i], a[1..][j]) {
          assert a[1..][i] == a[i + 1] && a[1..][j] == a[j + 1];
        }
      }
      assert Ascending(b[1..]) by {
        forall i, j | 0 <= i < j < |b[1..]| ensures Before(b[1..][i], b[1..][j]) {
          assert b[1..][i] == b[i + 1] && b[1..][j] == b[j + 1];
        }
      }
      AscendingUnique(a[1..], b[1..]);
      assert a == [a[0]] + a[1..] && b == [b[0]] + b[1..];
    }
  }
}
