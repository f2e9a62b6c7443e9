/** What a text index promises over a whole run: the answers of a map from what handles stand for
    to values. */
module IndexSpec {
  datatype Op =
    | Set(key: nat, value: int)
    | Get(key: nat)
    | Contains(key: nat)
    | GetOrInsert(key: nat, value: int)

  /** The map after one call. */
  function Step<K>(m: map<K, int>, view: nat -> K, op: Op): map<K, int> {
    match op
    case Set(key, value) => m[view(key) := value]
    case GetOrInsert(key, value) => if view(key) in m then m else m[view(key) := value]
    case _ => m
  }

  /** What one call answers; a missing key reads as `absent`, and setting answers 1. */
  function Answer<K>(m: map<K, int>, view: nat -> K, op: Op, absent: int): int {
    match op
    case Set(_, _) => 1
    case Get(key) => if view(key) in m then m[view(key)] else absent
    case Contains(key) => if view(key) in m then 1 else 0
    case GetOrInsert(key, value) => if view(key) in m then m[view(key)] else value
  }

  function After<K>(m: map<K, int>, view: nat -> K, ops: seq<Op>): map<K, int> {
    if ops == [] then m else Step(After(m, view, ops[..|ops| - 1]), view, ops[|ops| - 1])
  }

  function Answers<K>(m: map<K, int>, view: nat -> K, ops: seq<Op>, absent: int): seq<int> {
    if ops == [] then []
    else
      var before := ops[..|ops| - 1];
      Answers(m, view, before, absent) + [Answer(After(m, view, before), view, ops[|ops| - 1], absent)]
  }

  lemma OneMore<K>(m: map<K, int>, view: nat -> K, ops: seq<Op>, n: nat, absent: int)
    requires n < |ops|
    ensures After(m, view, ops[..n + 1]) == Step(After(m, view, ops[..n]), view, ops[n])
    ensures Answers(m, view, ops[..n + 1], absent)
         == Answers(m, view, ops[..n], absent) + [Answer(After(m, view, ops[..n]), view, ops[n], absent)]
  {
    assert ops[..n + 1][..n] == ops[..n];
  }
}
