/** A sorted set of ids: ordered by score, then by id, as Redis orders one. */
module SortedIndex {
  import opened Helpers

  datatype Member = Member(score: int, id: string)

  /** Character by character; a proper prefix comes first. */
  predicate LexLess(a: string, b: string)
    decreases |a|
  {
    b != "" && (a == "" || a[0] < b[0] || (a[0] == b[0] && LexLess(a[1..], b[1..])))
  }

  predicate Before(a: Member, b: Member) {
    a.score < b.score || (a.score == b.score && LexLess(a.id, b.id))
  }

  lemma {:induction false} LexTrichotomy(a: string, b: string)
    ensures a == b <==> !LexLess(a, b) && !LexLess(b, a)
    ensures !(LexLess(a, b) && LexLess(b, a))
    decreases |a|
  {
    if a != "" && b != "" && a[0] == b[0] {
      LexTrichotomy(a[1..], b[1..]);
      assert a == [a[0]] + a[1..] && b == [b[0]] + b[1..];
    }
  }

  lemma {:induction false} LexTransitive(a: string, b: string, c: string)
    requires LexLess(a, b) && LexLess(b, c)
    ensures LexLess(a, c)
    decreases |a|
  {
    if a != "" && a[0] == b[0] == c[0] { LexTransitive(a[1..], b[1..], c[1..]); }
  }

  lemma BeforeTrichotomy(a: Member, b: Member)
    ensures a == b <==> !Before(a, b) && !Before(b, a)
    ensures !(Before(a, b) && Before(b, a))
  {
    LexTrichotomy(a.id, b.id);
  }

  lemma BeforeTransitive(a: Member, b: Member, c: Member)
    requires Before(a, b) && Before(b, c)
    ensures Before(a, c)
  {
    if a.score == b.score == c.score { LexTransitive(a.id, b.id, c.id); }
  }

  ghost predicate Sorted(index: seq<Member>) {
    forall i, j :: 0 <= i < j < |index| ==> Before(index[i], index[j])
  }

  function Insert(index: seq<Member>, m: Member): seq<Member>
    decreases |index|
  {
    if index == [] || Before(m, index[0]) then [m] + index
    else [index[0]] + Insert(index[1..], m)
  }

  function OtherThan(id: string): Member -> bool {
    (m: Member) => m.id != id
  }

  function NoneOf(ids: seq<string>): Member -> bool {
    (m: Member) => m.id !in ids
  }

  function ScoreOutside(low: int, high: int): Member -> bool {
    (m: Member) => !(low <= m.score <= high)
  }

  /** ZADD: one score per id. */
  function Add(index: seq<Member>, m: Member): seq<Member> {
    Insert(Filter(index, OtherThan(m.id)), m)
  }

  /** ZREMRANGEBYSCORE. */
  function RemoveScores(index: seq<Member>, low: int, high: int): seq<Member> {
    Filter(index, ScoreOutside(low, high))
  }

  /** ZREM. */
  function Remove(index: seq<Member>, ids: seq<string>): seq<Member> {
    Filter(index, NoneOf(ids))
  }

  lemma {:induction false} FilterKeeps(index: seq<Member>, keep: Member -> bool)
    requires Sorted(index)
    ensures Sorted(Filter(index, keep))
    ensures forall m :: m in Filter(index, keep) <==> m in index && keep(m)
    ensures |Filter(index, keep)| <= |index|
    decreases |index|
  {
    hide Before;
    if index != [] {
      var rest := index[1..];
      FilterKeeps(rest, keep);
      assert index == [index[0]] + rest;
      forall m | m in Filter(rest, keep) ensures Before(index[0], m) {
        var i :| 0 <= i < |rest| && rest[i] == m;
        assert index[i + 1] == m;
      }
    }
  }

  lemma {:induction false} InsertKeeps(index: seq<Member>, m: Member)
    requires Sorted(index) && m !in index
    ensures Sorted(Insert(index, m))
    ensures forall x :: x in Insert(index, m) <==> x == m || x in index
    ensures |Insert(index, m)| == |index| + 1
    decreases |index|
  {
    hide Before;
    if index != [] && !Before(m, index[0]) {
      var rest := index[1..];
      InsertKeeps(rest, m);
      BeforeTrichotomy(m, index[0]);
      assert index == [index[0]] + rest;
      forall x | x in Insert(rest, m) ensures Before(index[0], x) {
        if x != m {
          var i :| 0 <= i < |rest| && rest[i] == x;
          assert index[i + 1] == x;
        }
      }
    } else if index != [] {
      forall i | 0 <= i < |index| ensures Before(m, index[i]) {
        if i > 0 { BeforeTransitive(m, index[0], index[i]); }
      }
    }
  }

  lemma {:induction false} AddKeeps(index: seq<Member>, m: Member)
    requires Sorted(index)
    ensures Sorted(Add(index, m))
    ensures forall x :: x in Add(index, m) <==> x == m || (x in index && x.id != m.id)
    ensures |Add(index, m)| <= |index| + 1
  {
    FilterKeeps(index, OtherThan(m.id));
    InsertKeeps(Filter(index, OtherThan(m.id)), m);
  }
}
