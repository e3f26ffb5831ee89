/**
 * Helpers shared by every part of the store model: optional values, results
 * carrying the exception a store operation raises, row ids, and the
 * lower-casing used for case-insensitive names.
 */
module Common {

  datatype Option<T> = None | Some(value: T)

  /** The outcome of an operation that may raise: `Err` carries which exception. */
  datatype Result<T, E> = Ok(value: T) | Err(error: E)

  /**
   * A row id. Every table uses SQLite autoincrement keys, which start at 1, so
   * an id is never 0 and Python's truth test on an optional id is the same as
   * asking whether it is present.
   */
  type Id = i: int | 1 <= i witness 1

  /** Lower-casing of one character (ASCII letters only). */
  function LowerChar(c: char): char
  {
    if 'A' <= c <= 'Z' then (c as int + 32) as char else c
  }

  /** `str.lower()`, restricted to ASCII letters. */
  function Lower(s: string): (r: string)
    ensures |r| == |s|
    ensures forall i :: 0 <= i < |s| ==> r[i] == LowerChar(s[i])
  {
    if s == [] then [] else [LowerChar(s[0])] + Lower(s[1..])
  }

  /** Lower-casing is idempotent, so a stored `name_lower` is its own key. */
  lemma LowerIdempotent(s: string)
    ensures Lower(Lower(s)) == Lower(s)
  {
  }

  predicate StartsWith(s: string, prefix: string)
  {
    |prefix| <= |s| && s[..|prefix|] == prefix
  }

  /**
   * The `__eq__` every record wrapper defines: two records are equal only
   * when this one has an id and the other carries the same id.
   */
  predicate SameRecord(mine: Option<Id>, other: Option<Id>)
  {
    mine.Some? && other == mine
  }

  /** A record whose id is gone (never saved, or deleted) is not even equal to itself. */
  lemma SameRecordNeedsId(a: Option<Id>, b: Option<Id>)
    ensures SameRecord(a, b) <==> a.Some? && b.Some? && a.value == b.value
    ensures !SameRecord(None, b)
    ensures SameRecord(a, b) <==> SameRecord(b, a)
  {
  }

  /**
   * `select(...).where(p).first()`: some row satisfying the filter, or None
   * when no row does. Which row comes first is left open, as SQL leaves it.
   */
  method FirstWhere<R>(m: map<Id, R>, p: R -> bool) returns (r: Option<Id>)
    ensures r.Some? ==> r.value in m && p(m[r.value])
    ensures r.None? ==> forall k :: k in m ==> !p(m[k])
  {
    r := None;
    var rest := m.Keys;
    while rest != {}
      invariant rest <= m.Keys
      invariant r.Some? ==> r.value in m && p(m[r.value])
      invariant r.None? ==> forall k :: k in m && k !in rest ==> !p(m[k])
      decreases rest
    {
      var k :| k in rest;
      rest := rest - {k};
      if r.None? && p(m[k]) {
        r := Some(k);
      }
    }
  }
}
