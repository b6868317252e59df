/** Time constants, option types and the two library sorts the other modules use. */
module Common {

  const MINUTE := 60_000
  const HOUR := 3_600_000
  const DAY := 86_400_000
  /** The five-minute grid every lock is written on. */
  const BUCKET := 300_000

  datatype Option<+T> = None | Some(value: T)

  function Max(a: int, b: int): int {
    if a < b then b else a
  }

  function Min(a: int, b: int): int {
    if a < b then a else b
  }

  predicate OnGrid(t: int) {
    t % BUCKET == 0
  }

  /** `Math.floor(x / BUCKET_MS) * BUCKET_MS` */
  function FloorBucket(x: int): (r: int)
    ensures r <= x < r + BUCKET && OnGrid(r)
  {
    x / BUCKET * BUCKET
  }

  /** `Math.ceil(x / BUCKET_MS) * BUCKET_MS` */
  function CeilBucket(x: int): (r: int)
    ensures x <= r < x + BUCKET && OnGrid(r)
  {
    (x + BUCKET - 1) / BUCKET * BUCKET
  }

  ghost predicate SortedInts(s: seq<int>) {
    forall i, j :: 0 <= i < j < |s| ==> s[i] <= s[j]
  }

  ghost predicate StrictlySorted(s: seq<int>) {
    forall i, j :: 0 <= i < j < |s| ==> s[i] < s[j]
  }

  function InsertInt(x: int, s: seq<int>): (r: seq<int>)
    ensures multiset(r) == multiset{x} + multiset(s)
  {
    if s == [] || x <= s[0] then [x] + s
    else
      assert s == [s[0]] + s[1..];
      [s[0]] + InsertInt(x, s[1..])
  }

  lemma InsertKeepsOrder(x: int, s: seq<int>)
    requires SortedInts(s)
    ensures SortedInts(InsertInt(x, s))
  {
    if s != [] && s[0] < x {
      InsertKeepsOrder(x, s[1..]);
      var rest := InsertInt(x, s[1..]);
      forall i | 0 <= i < |rest| ensures s[0] <= rest[i] {
        assert rest[i] in multiset(rest);
        assert rest[i] == x || rest[i] in s[1..];
      }
    }
  }

  /** `Array.prototype.sort` with numeric order. */
  function SortInts(s: seq<int>): (r: seq<int>)
    ensures SortedInts(r) && multiset(r) == multiset(s)
  {
    if s == [] then []
    else
      assert s == [s[0]] + s[1..];
      InsertKeepsOrder(s[0], SortInts(s[1..]));
      InsertInt(s[0], SortInts(s[1..]))
  }

  lemma EmptyOrMember(s: set<int>)
    ensures s == {} || exists x :: x in s
  {
    if forall x :: x !in s {
      assert s == {};
    }
  }

  lemma SameElements<T>(a: seq<T>, b: seq<T>)
    requires multiset(a) == multiset(b)
    ensures |a| == |b|
    ensures forall x :: x in a <==> x in b
  {
    assert |multiset(a)| == |a| && |multiset(b)| == |b|;
    forall x ensures x in a <==> x in b {
      assert x in multiset(a) <==> x in a;
      assert x in multiset(b) <==> x in b;
    }
  }
}
