/** Vocabulary shared by every component: optional and failing results, instants,
    idealised digests, and the few facts about finite sets the counting arguments use. */
module Common {

  datatype Option<+T> = None | Some(value: T) {
    function GetOr(default: T): T {
      if Some? then value else default
    }
  }

  datatype Result<+T, +E> = Ok(value: T) | Err(error: E)

  // Instants and durations are integers counted in microseconds.
  type Time = int

  const SECOND: Time := 1_000_000
  const MINUTE: Time := 60 * SECOND
  const HOUR: Time := 60 * MINUTE

  // SHA-256 and bcrypt are idealised as injective: a digest determines what was hashed.
  datatype Digest = Digest(preimage: string)

  // The rows a SELECT returns, in some order: every wanted key once and nothing else.
  ghost predicate Lists<K(!new)>(answer: seq<K>, wanted: set<K>) {
    && (forall i, j :: 0 <= i < j < |answer| ==> answer[i] != answer[j])
    && (forall k :: k in answer <==> k in wanted)
  }

  lemma SubsetCardinality<T>(a: set<T>, b: set<T>)
    requires a <= b
    ensures |a| <= |b|
    ensures |a| == |b| ==> a == b
  {
    assert b == a + (b - a);
  }

  lemma {:induction false} ListedCardinality<K(!new)>(answer: seq<K>, wanted: set<K>)
    requires Lists(answer, wanted)
    ensures |answer| == |wanted|
  {
    if answer == [] {
      assert wanted == {};
    } else {
      var last := answer[|answer| - 1];
      var rest := answer[..|answer| - 1];
      assert answer == rest + [last];
      ListedCardinality(rest, wanted - {last});
    }
  }

  // The numbers of a set up to n.
  function Upto(ids: set<nat>, n: int): set<nat> {
    set id | id in ids && id <= n
  }

  lemma UptoShrinks(ids: set<nat>, ids': set<nat>, n: int)
    requires ids' <= ids
    ensures |Upto(ids', n)| <= |Upto(ids, n)|
  {
    SubsetCardinality(Upto(ids', n), Upto(ids, n));
  }

  lemma MemberOf<T>(xs: set<T>) returns (x: T)
    requires xs != {}
    ensures x in xs
  {
    x :| x in xs;
  }

  lemma NonemptyHasMember<T>(xs: seq<T>)
    ensures xs != [] ==> exists x :: x in xs
  {
    if xs != [] {
      assert xs[0] in xs;
    }
  }

}
