/** The effect of `dict_sweep(d, vals=['', 'null', 'N/A', None, [], {}])` on the
    flat record of strings the parser builds: every key whose value is one of the
    sweep values is deleted, and nothing else changes. The key type is left open. */
module Sweep {

  /** An entry of the `vals` list handed to `dict_sweep`: a Python `str`, `None`,
      an empty list or an empty dict. */
  datatype Sentinel = Str(text: string) | NoneValue | EmptyList | EmptyDict

  /** The sweep values the parser passes, in the order it passes them. */
  const NullVals: seq<Sentinel> := [Str(""), Str("null"), Str("N/A"), NoneValue, EmptyList, EmptyDict]

  /** Python `==` between a `str` and a sweep value: a string is equal only to a
      string with the same characters, never to `None`, `[]` or `{}`. */
  predicate Equals(v: string, s: Sentinel) {
    s.Str? && s.text == v
  }

  /** Python's `v in vals`. */
  predicate In(v: string, vals: seq<Sentinel>) {
    exists i :: 0 <= i < |vals| && Equals(v, vals[i])
  }

  /** A value the parser's sweep removes. */
  predicate IsNullLike(v: string) {
    In(v, NullVals)
  }

  /** Of the six sweep values only the three strings can match a string field. */
  lemma NullLikeIff(v: string)
    ensures IsNullLike(v) <==> v == "" || v == "null" || v == "N/A"
  {
    if v == "" {
      assert Equals(v, NullVals[0]);
    } else if v == "null" {
      assert Equals(v, NullVals[1]);
    } else if v == "N/A" {
      assert Equals(v, NullVals[2]);
    }
  }

  /** `dict_sweep(d, vals)` on a map from strings to strings: a key survives
      exactly when its value is not among `vals`, and keeps its value. */
  function DictSweep<K>(d: map<K, string>, vals: seq<Sentinel>): (r: map<K, string>)
    ensures r.Keys <= d.Keys
    ensures forall k :: k in d ==> (k in r <==> !In(d[k], vals))
    ensures forall k :: k in r ==> r[k] == d[k]
  {
    map k | k in d && !In(d[k], vals) :: d[k]
  }

  /** Sweeping leaves no sweep value behind, and a second sweep changes nothing. */
  lemma SweepIdempotent<K>(d: map<K, string>, vals: seq<Sentinel>)
    ensures forall k :: k in DictSweep(d, vals) ==> !In(DictSweep(d, vals)[k], vals)
    ensures DictSweep(DictSweep(d, vals), vals) == DictSweep(d, vals)
  {
  }

  /** A record with no sweep value in it comes through the sweep unchanged. */
  lemma SweepKeepsClean<K>(d: map<K, string>, vals: seq<Sentinel>)
    requires forall k :: k in d ==> !In(d[k], vals)
    ensures DictSweep(d, vals) == d
  {
  }
}
