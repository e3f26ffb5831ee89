/**
 * The two small wrappers of the SQLite-era store. `TrackingWrapper` snapshots
 * every attribute of the object it wraps into a sibling attribute named
 * `_orig_<name>`, then reports and undoes the changes made since.
 * `FilterWrapper` is a dictionary whose serialisation skips the keys listed
 * under `_do_not_serialize`, renders date-times as ISO text and drops
 * references to the store itself.
 */
module Tracking {
  import opened Common

  // ---------------------------------------------------------------------------
  // TrackingWrapper

  /** A field's value in the snapshot and now (the source's `old` and `new`). */
  datatype Change<V> = Change(was: V, now: V)

  const SnapshotPrefix: string := "_orig"
  const WrappedName: string := "_wrapped"

  /** The attribute that holds the snapshot of `k`. */
  function SnapshotKey(k: string): string
  {
    SnapshotPrefix + "_" + k
  }

  /** The attributes the wrapper reports and reverts: neither the wrapper link nor a snapshot. */
  predicate Tracked(k: string)
  {
    k != WrappedName && !StartsWith(k, SnapshotPrefix)
  }

  /** A snapshot attribute is never itself tracked. */
  lemma SnapshotNotTracked(k: string)
    ensures !Tracked(SnapshotKey(k))
  {
    assert SnapshotKey(k)[..|SnapshotPrefix|] == SnapshotPrefix;
  }

  /** Distinct attributes have distinct snapshot attributes. */
  lemma SnapshotKeyInjective(a: string, b: string)
    requires SnapshotKey(a) == SnapshotKey(b)
    ensures a == b
  {
    var n := |SnapshotPrefix + "_"|;
    assert a == SnapshotKey(a)[n..];
    assert b == SnapshotKey(b)[n..];
  }

  /** `k` is tracked, has a snapshot, and its value differs from it. */
  ghost predicate Changed<V>(attrs: map<string, V>, k: string)
  {
    k in attrs && Tracked(k) && SnapshotKey(k) in attrs && attrs[k] != attrs[SnapshotKey(k)]
  }

  /** Some tracked attribute has no snapshot: reading it raises `KeyError`. */
  ghost predicate SnapshotMissing<V>(keys: seq<string>, attrs: map<string, V>)
  {
    exists i :: 0 <= i < |keys| && Tracked(keys[i]) && SnapshotKey(keys[i]) !in attrs
  }

  /**
   * `get_changes` over an object's attributes (in insertion order): every
   * tracked attribute whose value differs from its snapshot, with both
   * values. An attribute added after the snapshot raises.
   */
  method Diff<V(==)>(keys: seq<string>, attrs: map<string, V>) returns (r: Result<map<string, Change<V>>, string>)
    requires forall i :: 0 <= i < |keys| ==> keys[i] in attrs
    ensures r.Err? <==> SnapshotMissing(keys, attrs)
    ensures r.Err? ==> r.error in keys && Tracked(r.error) && SnapshotKey(r.error) !in attrs
    ensures r.Ok? ==> forall k :: k in r.value <==> k in keys && Changed(attrs, k)
    ensures r.Ok? ==> forall k :: k in r.value ==>
              k in attrs && SnapshotKey(k) in attrs && r.value[k] == Change(attrs[SnapshotKey(k)], attrs[k])
  {
    var res: map<string, Change<V>> := map[];
    for i := 0 to |keys|
      invariant !SnapshotMissing(keys[..i], attrs)
      invariant forall k :: k in res <==> k in keys[..i] && Changed(attrs, k)
      invariant forall k :: k in res ==> k in attrs && SnapshotKey(k) in attrs && res[k] == Change(attrs[SnapshotKey(k)], attrs[k])
    {
      var key := keys[i];
      assert keys[..i + 1] == keys[..i] + [key];
      if Tracked(key) {
        if SnapshotKey(key) !in attrs {
          return Err(key);
        }
        var was := attrs[SnapshotKey(key)];
        var cur := attrs[key];
        if cur != was {
          res := res[key := Change(was, cur)];
        }
      }
    }
    assert keys[..|keys|] == keys;
    r := Ok(res);
  }

  /**
   * Writing a tracked attribute is detected exactly when the new value
   * differs from the snapshot, and changes the report for no other attribute.
   */
  lemma {:induction false} SetIsDetected<V>(attrs: map<string, V>, k: string, v: V)
    requires Tracked(k) && SnapshotKey(k) in attrs
    ensures Changed(attrs[k := v], k) <==> v != attrs[SnapshotKey(k)]
    ensures forall j :: j != k ==> (Changed(attrs[k := v], j) <==> Changed(attrs, j))
  {
    SnapshotNotTracked(k);
    forall j | j != k
      ensures Changed(attrs[k := v], j) <==> Changed(attrs, j)
    {
      SnapshotNotTracked(j);
    }
  }

  /** The attribute dictionary of a wrapped record, in insertion order. */
  class Wrapped<V(==)> {
    var keys: seq<string>
    var attrs: map<string, V>

    ghost predicate Valid()
      reads this
    {
      (forall i :: 0 <= i < |keys| ==> keys[i] in attrs) &&
      (forall k :: k in attrs ==> k in keys) &&
      (forall i, j :: 0 <= i < j < |keys| ==> keys[i] != keys[j])
    }

    constructor (keys: seq<string>, attrs: map<string, V>)
      requires forall i :: 0 <= i < |keys| ==> keys[i] in attrs
      requires forall k :: k in attrs ==> k in keys
      requires forall i, j :: 0 <= i < j < |keys| ==> keys[i] != keys[j]
      ensures Valid() && this.keys == keys && this.attrs == attrs
    {
      this.keys, this.attrs := keys, attrs;
    }

    /** Attribute assignment: a new attribute goes to the end of the order. */
    method Set(k: string, v: V)
      requires Valid()
      modifies this
      ensures Valid()
      ensures attrs == old(attrs)[k := v]
      ensures keys == if k in old(attrs) then old(keys) else old(keys) + [k]
    {
      if k !in attrs {
        keys := keys + [k];
      }
      attrs := attrs[k := v];
    }

    /**
     * The constructor's loop: copies every attribute other than the wrapper
     * link, as read at that moment, into its `_orig_` attribute.
     */
    method Snapshot()
      requires Valid()
      modifies this
      ensures Valid()
      ensures old(keys) <= keys
      ensures forall k :: k in old(attrs) && Tracked(k) ==>
                attrs[k] == old(attrs)[k] && SnapshotKey(k) in attrs && attrs[SnapshotKey(k)] == old(attrs)[k]
      ensures forall k :: k in attrs && Tracked(k) ==> k in old(attrs)
      ensures !SnapshotMissing(keys, attrs)
      ensures forall k :: !Changed(attrs, k)
    {
      ghost var attrs0 := attrs;
      var ks := keys;
      for i := 0 to |ks|
        invariant Valid()
        invariant ks <= keys
        invariant forall k :: k in attrs0 ==> k in attrs
        invariant forall k :: k in attrs0 && Tracked(k) ==> attrs[k] == attrs0[k]
        invariant forall k :: k in attrs && k !in attrs0 ==> !Tracked(k)
        invariant forall j :: 0 <= j < i && Tracked(ks[j]) ==>
                    SnapshotKey(ks[j]) in attrs && attrs[SnapshotKey(ks[j])] == attrs0[ks[j]]
      {
        SnapshotStep(attrs0, ks, i);
      }
      forall i | 0 <= i < |keys| && Tracked(keys[i])
        ensures SnapshotKey(keys[i]) in attrs
      {
        var j :| 0 <= j < |ks| && ks[j] == keys[i];
      }
    }

    /** One round of `Snapshot`'s loop. */
    method SnapshotStep(ghost attrs0: map<string, V>, ks: seq<string>, i: nat)
      requires Valid() && i < |ks| && ks <= keys
      requires forall k :: k in attrs0 ==> k in attrs
      requires forall k :: k in attrs0 && Tracked(k) ==> attrs[k] == attrs0[k]
      requires forall k :: k in attrs && k !in attrs0 ==> !Tracked(k)
      requires forall j :: 0 <= j < i && Tracked(ks[j]) ==>
                 SnapshotKey(ks[j]) in attrs && attrs[SnapshotKey(ks[j])] == attrs0[ks[j]]
      requires Tracked(ks[i]) ==> ks[i] in attrs0
      modifies this
      ensures Valid() && ks <= keys
      ensures forall k :: k in attrs0 ==> k in attrs
      ensures forall k :: k in attrs0 && Tracked(k) ==> attrs[k] == attrs0[k]
      ensures forall k :: k in attrs && k !in attrs0 ==> !Tracked(k)
      ensures forall j :: 0 <= j <= i && Tracked(ks[j]) ==>
                SnapshotKey(ks[j]) in attrs && attrs[SnapshotKey(ks[j])] == attrs0[ks[j]]
    {
      var key := ks[i];
      if key != WrappedName {
        SnapshotNotTracked(key);
        forall j | 0 <= j < i && Tracked(ks[j])
          ensures SnapshotKey(ks[j]) != SnapshotKey(key)
        {
          if SnapshotKey(ks[j]) == SnapshotKey(key) {
            SnapshotKeyInjective(ks[j], key);
          }
        }
        Set(SnapshotKey(key), attrs[key]);
      }
    }
  }

  class TrackingWrapper<V(==)> {
    const wrapped: Wrapped<V>

    /**
     * Snapshots every attribute of `w` other than the wrapper link into its
     * `_orig_` attribute. Tracked attributes keep their values, every new
     * attribute is a snapshot, and so nothing reads as changed.
     */
    constructor (w: Wrapped<V>)
      requires w.Valid()
      modifies w
      ensures wrapped == w && w.Valid()
      ensures old(w.keys) <= w.keys
      ensures forall k :: k in old(w.attrs) && Tracked(k) ==>
                w.attrs[k] == old(w.attrs)[k] && SnapshotKey(k) in w.attrs &&
                w.attrs[SnapshotKey(k)] == old(w.attrs)[k]
      ensures forall k :: k in w.attrs && Tracked(k) ==> k in old(w.attrs)
      ensures !SnapshotMissing(w.keys, w.attrs)
      ensures forall k :: !Changed(w.attrs, k)
    {
      wrapped := w;
      new;
      w.Snapshot();
    }

    /** `__getattr__`: reads are forwarded to the wrapped record. */
    function GetAttr(k: string): (r: Option<V>)
      reads this, wrapped
      ensures r.Some? <==> k in wrapped.attrs
      ensures r.Some? ==> r.value == wrapped.attrs[k]
    {
      if k in wrapped.attrs then Some(wrapped.attrs[k]) else None
    }

    /** `__setattr__`: writes are forwarded to the wrapped record. */
    method SetAttr(k: string, v: V)
      requires wrapped.Valid() && k != WrappedName
      modifies wrapped
      ensures wrapped.Valid()
      ensures wrapped.attrs == old(wrapped.attrs)[k := v]
      ensures wrapped.keys == if k in old(wrapped.attrs) then old(wrapped.keys) else old(wrapped.keys) + [k]
    {
      wrapped.Set(k, v);
    }

    /** `get_changes`: the `Diff` of the wrapped record's attributes. */
    method GetChanges() returns (r: Result<map<string, Change<V>>, string>)
      requires wrapped.Valid()
      ensures r.Err? <==> SnapshotMissing(wrapped.keys, wrapped.attrs)
      ensures r.Ok? ==> forall k :: k in r.value <==> Changed(wrapped.attrs, k)
      ensures r.Ok? ==> forall k :: k in r.value ==>
                k in wrapped.attrs && SnapshotKey(k) in wrapped.attrs &&
                r.value[k] == Change(wrapped.attrs[SnapshotKey(k)], wrapped.attrs[k])
    {
      r := Diff(wrapped.keys, wrapped.attrs);
    }

    /** `is_changed`: whether `get_changes` reports anything. */
    method IsChanged() returns (r: Result<bool, string>)
      requires wrapped.Valid()
      ensures r.Err? <==> SnapshotMissing(wrapped.keys, wrapped.attrs)
      ensures r.Ok? ==> (r.value <==> exists k :: Changed(wrapped.attrs, k))
    {
      var changes := GetChanges();
      if changes.Err? {
        return Err(changes.error);
      }
      if |changes.value| > 0 {
        var k :| k in changes.value;
        return Ok(true);
      }
      r := Ok(false);
    }

    /**
     * `revert`: every tracked attribute that differs from its snapshot gets
     * the snapshot value back, and nothing reads as changed afterwards. An
     * attribute without a snapshot raises, after the attributes before it
     * were already reverted.
     */
    method Revert() returns (r: Result<(), string>)
      requires wrapped.Valid()
      modifies wrapped
      ensures wrapped.Valid() && wrapped.keys == old(wrapped.keys) && wrapped.attrs.Keys == old(wrapped.attrs).Keys
      ensures r.Err? <==> SnapshotMissing(old(wrapped.keys), old(wrapped.attrs))
      ensures forall k :: k in wrapped.attrs ==>
                wrapped.attrs[k] == old(wrapped.attrs)[k] ||
                (Tracked(k) && SnapshotKey(k) in old(wrapped.attrs) && wrapped.attrs[k] == old(wrapped.attrs)[SnapshotKey(k)])
      ensures r.Ok? ==> forall k :: k in wrapped.attrs ==>
                wrapped.attrs[k] == if Tracked(k) then old(wrapped.attrs)[SnapshotKey(k)] else old(wrapped.attrs)[k]
      ensures r.Ok? ==> forall k :: !Changed(wrapped.attrs, k)
    {
      ghost var attrs0 := wrapped.attrs;
      var ks := wrapped.keys;
      for i := 0 to |ks|
        invariant wrapped.Valid() && wrapped.keys == ks && wrapped.attrs.Keys == attrs0.Keys
        invariant !SnapshotMissing(ks[..i], attrs0)
        invariant RevertedUpTo(attrs0, wrapped.attrs, ks, i)
      {
        var missing := RevertStep(attrs0, ks, i);
        if missing {
          return Err(ks[i]);
        }
      }
      assert ks[..|ks|] == ks;
      RevertedAll(attrs0, wrapped.attrs, ks);
      r := Ok(());
    }

    /** One round of `Revert`'s loop; `missing` when the attribute has no snapshot. */
    method RevertStep(ghost attrs0: map<string, V>, ks: seq<string>, i: nat) returns (missing: bool)
      requires wrapped.Valid() && wrapped.keys == ks && wrapped.attrs.Keys == attrs0.Keys && i < |ks|
      requires !SnapshotMissing(ks[..i], attrs0)
      requires RevertedUpTo(attrs0, wrapped.attrs, ks, i)
      modifies wrapped
      ensures wrapped.Valid() && wrapped.keys == ks && wrapped.attrs.Keys == attrs0.Keys
      ensures missing <==> Tracked(ks[i]) && SnapshotKey(ks[i]) !in attrs0
      ensures missing ==> SnapshotMissing(ks, attrs0) && RevertedUpTo(attrs0, wrapped.attrs, ks, i)
      ensures !missing ==> !SnapshotMissing(ks[..i + 1], attrs0) && RevertedUpTo(attrs0, wrapped.attrs, ks, i + 1)
    {
      var key := ks[i];
      assert ks[..i + 1] == ks[..i] + [key];
      missing := false;
      if Tracked(key) {
        if SnapshotKey(key) !in wrapped.attrs {
          missing := true;
          return;
        }
        SnapshotNotTracked(key);
        var was := wrapped.attrs[SnapshotKey(key)];
        if wrapped.attrs[key] != was {
          wrapped.Set(key, was);
        }
      }
    }
  }

  /**
   * `revert`'s loop has run over the first `i` attributes: those that are
   * tracked hold their snapshot, the rest of the list is untouched, and
   * every attribute holds either its old value or its snapshot.
   */
  ghost predicate RevertedUpTo<V>(attrs0: map<string, V>, attrs: map<string, V>, ks: seq<string>, i: int)
  {
    0 <= i <= |ks| &&
    (forall k :: k in attrs ==>
       k in attrs0 && (attrs[k] == attrs0[k] || (Tracked(k) && SnapshotKey(k) in attrs0 && attrs[k] == attrs0[SnapshotKey(k)]))) &&
    (forall k :: k in attrs && !Tracked(k) ==> attrs[k] == attrs0[k]) &&
    (forall j :: 0 <= j < i && Tracked(ks[j]) ==>
       ks[j] in attrs && SnapshotKey(ks[j]) in attrs0 && attrs[ks[j]] == attrs0[SnapshotKey(ks[j])]) &&
    (forall j :: i <= j < |ks| ==> ks[j] in attrs && ks[j] in attrs0 && attrs[ks[j]] == attrs0[ks[j]])
  }

  /** Once every listed attribute was visited, each tracked one holds its snapshot and none reads as changed. */
  lemma RevertedAll<V>(attrs0: map<string, V>, attrs: map<string, V>, ks: seq<string>)
    requires forall k :: k in attrs ==> k in ks
    requires attrs.Keys == attrs0.Keys
    requires !SnapshotMissing(ks, attrs0)
    requires RevertedUpTo(attrs0, attrs, ks, |ks|)
    ensures forall k :: k in attrs && Tracked(k) ==> SnapshotKey(k) in attrs0 && attrs[k] == attrs0[SnapshotKey(k)]
    ensures forall k :: !Changed(attrs, k)
  {
    forall k | k in attrs && Tracked(k)
      ensures SnapshotKey(k) in attrs0 && attrs[k] == attrs0[SnapshotKey(k)]
      ensures SnapshotKey(k) in attrs && attrs[SnapshotKey(k)] == attrs[k]
    {
      var j :| 0 <= j < |ks| && ks[j] == k;
      SnapshotNotTracked(k);
    }
  }

  // ---------------------------------------------------------------------------
  // FilterWrapper

  const DoNotSerialize: string := "_do_not_serialize"

  /**
   * A dictionary value. `Moment` is a date-time, kept as the text its
   * `isoformat()` gives; `StoreRef` is a reference to the store itself.
   */
  datatype Value = Text(s: string) | Number(n: int) | Moment(iso: string) | StoreRef | KeyList(names: seq<string>) | Null

  /** `x.append` on a filter entry that is not a list, or `k in x` on one that is not a container. */
  datatype FilterError = NotAList | NotAContainer

  predicate IsSubstring(k: string, s: string)
  {
    exists i :: 0 <= i <= |s| && StartsWith(s[i..], k)
  }

  /** `k in f` for the filter entry `f`: list membership, or substring for text. */
  function Excludes(f: Value, k: string): Result<bool, FilterError>
  {
    match f
    case KeyList(names) => Ok(k in names)
    case Text(s) => Ok(IsSubstring(k, s))
    case _ => Err(NotAContainer)
  }

  /** How a value is serialised: a date-time becomes its ISO text, anything else itself. */
  function Rendered(v: Value): Value
  {
    if v.Moment? then Text(v.iso) else v
  }

  /**
   * The pairs `items()` yields for the keys in order, one key at a time from
   * the front: the filter key itself is skipped, a listed key is skipped, a
   * store reference is dropped, and everything else is yielded rendered.
   */
  ghost function Serialised(keys: seq<string>, entries: map<string, Value>): Result<seq<(string, Value)>, FilterError>
    requires forall i :: 0 <= i < |keys| ==> keys[i] in entries
  {
    if keys == [] then Ok([])
    else
      var init := Serialised(keys[..|keys| - 1], entries);
      var k := keys[|keys| - 1];
      if init.Err? || k == DoNotSerialize then init
      else if DoNotSerialize in entries && Excludes(entries[DoNotSerialize], k).Err? then
        Err(Excludes(entries[DoNotSerialize], k).error)
      else if DoNotSerialize in entries && Excludes(entries[DoNotSerialize], k).value then init
      else if entries[k].StoreRef? then init
      else Ok(init.value + [(k, Rendered(entries[k]))])
  }

  /** Whether `items()` skips key `k` because of the filter. */
  ghost predicate Filtered(entries: map<string, Value>, k: string)
  {
    DoNotSerialize in entries && Excludes(entries[DoNotSerialize], k) == Ok(true)
  }

  /** The generator `items()`, run to the end. */
  method Items(keys: seq<string>, entries: map<string, Value>) returns (r: Result<seq<(string, Value)>, FilterError>)
    requires forall i :: 0 <= i < |keys| ==> keys[i] in entries
    ensures r == Serialised(keys, entries)
  {
    var haveFilter := DoNotSerialize in entries;
    var out: seq<(string, Value)> := [];
    for i := 0 to |keys|
      invariant Serialised(keys[..i], entries) == Ok(out)
    {
      var k := keys[i];
      assert keys[..i + 1][..i] == keys[..i];
      if k == DoNotSerialize {
        continue;
      }
      if haveFilter {
        var skip := Excludes(entries[DoNotSerialize], k);
        if skip.Err? {
          assert Serialised(keys[..i + 1], entries) == Err(skip.error);
          SerialisedKeepsError(keys, entries, i + 1);
          assert keys[..|keys|] == keys;
          return Err(skip.error);
        }
        if skip.value {
          continue;
        }
      }
      var v := entries[k];
      if v.Moment? {
        out := out + [(k, Text(v.iso))];
      } else if !v.StoreRef? {
        out := out + [(k, v)];
      }
    }
    assert keys[..|keys|] == keys;
    r := Ok(out);
  }

  /** Once a prefix of the keys fails, so does every longer prefix. */
  lemma {:induction false} SerialisedKeepsError(keys: seq<string>, entries: map<string, Value>, n: nat)
    requires forall i :: 0 <= i < |keys| ==> keys[i] in entries
    requires n <= |keys| && Serialised(keys[..n], entries).Err?
    ensures Serialised(keys, entries) == Serialised(keys[..n], entries)
    decreases |keys| - n
  {
    if n < |keys| {
      assert keys[..n + 1][..n] == keys[..n];
      SerialisedKeepsError(keys, entries, n + 1);
    } else {
      assert keys[..n] == keys;
    }
  }

  /**
   * Everything `items()` yields is a key of the dictionary other than the
   * filter key, not filtered, not a store reference, and rendered.
   */
  lemma {:induction false} SerialisedIsFiltered(keys: seq<string>, entries: map<string, Value>)
    requires forall i :: 0 <= i < |keys| ==> keys[i] in entries
    ensures Serialised(keys, entries).Ok? ==>
              forall p :: p in Serialised(keys, entries).value ==>
                p.0 in keys && p.0 != DoNotSerialize && !Filtered(entries, p.0) &&
                !entries[p.0].StoreRef? && p.1 == Rendered(entries[p.0]) && !p.1.Moment?
  {
    if keys != [] {
      SerialisedIsFiltered(keys[..|keys| - 1], entries);
    }
  }

  /** Every other key of the dictionary is yielded, rendered. */
  lemma {:induction false} SerialisedIsComplete(keys: seq<string>, entries: map<string, Value>)
    requires forall i :: 0 <= i < |keys| ==> keys[i] in entries
    ensures Serialised(keys, entries).Ok? ==>
              forall k :: k in keys && k != DoNotSerialize && !Filtered(entries, k) && !entries[k].StoreRef? ==>
                (k, Rendered(entries[k])) in Serialised(keys, entries).value
  {
    if keys != [] {
      var init := keys[..|keys| - 1];
      SerialisedIsComplete(init, entries);
      assert keys == init + [keys[|keys| - 1]];
    }
  }

  /**
   * `items()` fails exactly when a filter entry that is neither a list nor
   * text is tested against some key other than the filter key.
   */
  lemma {:induction false} SerialisedFails(keys: seq<string>, entries: map<string, Value>)
    requires forall i :: 0 <= i < |keys| ==> keys[i] in entries
    ensures Serialised(keys, entries).Err? <==>
              DoNotSerialize in entries && Excludes(entries[DoNotSerialize], "").Err? &&
              exists i :: 0 <= i < |keys| && keys[i] != DoNotSerialize
  {
    if keys != [] {
      var init := keys[..|keys| - 1];
      SerialisedFails(init, entries);
      if exists i :: 0 <= i < |init| && init[i] != DoNotSerialize {
        var i :| 0 <= i < |init| && init[i] != DoNotSerialize;
        assert keys[i] == init[i];
      }
    }
  }

  class FilterWrapper {
    var keys: seq<string>
    var entries: map<string, Value>

    ghost predicate Valid()
      reads this
    {
      (forall i :: 0 <= i < |keys| ==> keys[i] in entries) &&
      (forall k :: k in entries ==> k in keys)
    }

    /**
     * `filter_key`: creates the filter list when absent and appends `key` to
     * it; a filter entry that is not a list cannot be appended to.
     */
    method FilterKey(key: string) returns (r: Result<(), FilterError>)
      requires Valid()
      modifies this
      ensures Valid()
      ensures r.Err? <==> DoNotSerialize in old(entries) && !old(entries)[DoNotSerialize].KeyList?
      ensures r.Err? ==> r.error == NotAList && entries == old(entries) && keys == old(keys)
      ensures r.Ok? ==> keys == if DoNotSerialize in old(entries) then old(keys) else old(keys) + [DoNotSerialize]
      ensures r.Ok? ==> entries == old(entries)[DoNotSerialize := KeyList(
                (if DoNotSerialize in old(entries) then old(entries)[DoNotSerialize].names else []) + [key])]
      ensures r.Ok? ==> Filtered(entries, key)
    {
      if DoNotSerialize !in entries {
        keys := keys + [DoNotSerialize];
        entries := entries[DoNotSerialize := KeyList([])];
      }
      var f := entries[DoNotSerialize];
      if !f.KeyList? {
        return Err(NotAList);
      }
      entries := entries[DoNotSerialize := KeyList(f.names + [key])];
      r := Ok(());
    }

    /** `items()` on this dictionary. */
    method GetItems() returns (r: Result<seq<(string, Value)>, FilterError>)
      requires Valid()
      ensures r == Serialised(keys, entries)
    {
      r := Items(keys, entries);
    }
  }
}
