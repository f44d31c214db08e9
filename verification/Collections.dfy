/** What several components share. */
module Collections {

  datatype Option<T> = None | Some(value: T)

  /** The position of the first `c`, or the length when there is none. */
  function Find(s: string, c: char): (n: nat)
    ensures n <= |s| && (n < |s| ==> s[n] == c) && forall i :: 0 <= i < n ==> s[i] != c
  {
    if s == "" || s[0] == c then 0 else 1 + Find(s[1..], c)
  }

  /** No element occurs twice. */
  ghost predicate Distinct<T>(q: seq<T>) {
    forall i, j :: 0 <= i < j < |q| ==> q[i] != q[j]
  }

  lemma DistinctSplit<T>(q: seq<T>)
    requires q != []
    ensures Distinct(q) <==> q[0] !in q[1..] && Distinct(q[1..])
  {
    var rest := q[1..];
    assert forall i :: 1 <= i < |q| ==> q[i] == rest[i - 1];
    if q[0] !in rest && Distinct(rest) {
      forall i, j | 0 <= i < j < |q| ensures q[i] != q[j] {
        assert q[j] == rest[j - 1];
        assert i > 0 ==> q[i] == rest[i - 1];
      }
    }
    if Distinct(q) {
      forall i, j | 0 <= i < j < |rest| ensures rest[i] != rest[j] {
        assert rest[i] == q[i + 1] && rest[j] == q[j + 1];
      }
      assert forall i :: 0 <= i < |rest| ==> rest[i] == q[i + 1];
    }
  }

  /** The texts one after the other, with a separator between them. */
  function Joined(texts: seq<string>, sep: string): string {
    if texts == [] then "" else if |texts| == 1 then texts[0] else texts[0] + sep + Joined(texts[1..], sep)
  }
}
