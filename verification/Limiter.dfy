/** The limiter object: a map of slices, each compacted in place in its own backing array. */
module Limiter {
  import opened RateLimit

  /** A Go slice: nil, or the first `len` elements of a backing array. */
  datatype Slice = Nil | Slice(buf: array<int>, len: nat)

  ghost predicate SliceOk(s: Slice) {
    s.Slice? ==> s.len <= s.buf.Length
  }

  ghost function Elements(s: Slice): seq<int>
    requires SliceOk(s)
    reads if s.Slice? then {s.buf} else {}
  {
    if s.Nil? then [] else s.buf[..s.len]
  }

  /** The purge loop: reads the slice from front to back and moves what it keeps to the front
      of the same array. */
  method Compact(buf: array<int>, len: nat, cutoff: int) returns (n: nat)
    requires len <= buf.Length
    modifies buf
    ensures n <= len && buf[..n] == Recent(old(buf[..len]), cutoff)
  {
    n := 0;
    ghost var all := buf[..len];
    for i := 0 to len
      invariant n <= i
      invariant buf[..n] == Recent(all[..i], cutoff)
      invariant forall j | i <= j < len :: buf[j] == all[j]
    {
      var t := buf[i];
      assert t == all[i];
      assert all[..i + 1][..i] == all[..i];
      if t > cutoff {
        buf[n] := t;
        n := n + 1;
      }
    }
    assert all[..len] == all;
  }

  /** append: in place if there is room, else in a new array. */
  method Append(s: Slice, t: int) returns (r: Slice)
    requires SliceOk(s)
    modifies if s.Slice? then {s.buf} else {}
    ensures r.Slice? && SliceOk(r) && Elements(r) == old(Elements(s)) + [t]
    ensures fresh(r.buf) || (s.Slice? && r.buf == s.buf)
  {
    match s
    case Nil =>
      var b := new int[1];
      b[0] := t;
      r := Slice(b, 1);
    case Slice(buf, len) =>
      if len < buf.Length {
        buf[len] := t;
        r := Slice(buf, len + 1);
      } else {
        var b := new int[2 * len + 1];
        forall i | 0 <= i < len {
          b[i] := buf[i];
        }
        b[len] := t;
        r := Slice(b, len + 1);
      }
  }

  class Limiter {
    var attempts: map<string, Slice>
    const max: int
    const window: int
    /** The lists as values, and for every backing array the one key that uses it. */
    ghost var lists: Attempts
    ghost var owner: map<array<int>, string>

    /** Every stored slice is non-empty, lies within its array and shares it with no other key. */
    ghost predicate Valid()
      reads this, owner.Keys
    {
      lists.Keys == attempts.Keys && forall key <- attempts :: Holds(key)
    }

    ghost predicate Holds(key: string)
      requires key in attempts && key in lists
      reads this, owner.Keys
    {
      var s := attempts[key];
      && s.Slice? && s.buf in owner && owner[s.buf] == key
      && 0 < s.len <= s.buf.Length && s.buf[..s.len] == lists[key]
    }

    constructor (max: int, window: int)
      ensures Valid() && lists == map[] && owner == map[] && this.max == max && this.window == window
    {
      this.max, this.window, attempts := max, window, map[];
      lists, owner := map[], map[];
    }

    method PurgeLocked(key: string, now: int) returns (kept: Slice)
      requires Valid()
      modifies this, owner.Keys
      ensures Valid() && owner == old(owner)
      ensures lists == Purge(old(lists), key, now - window)
      ensures kept == if key in attempts then attempts[key] else Nil
    {
      if key !in attempts {
        assert old(lists) - {key} == old(lists);
        return Nil;
      }
      assert Holds(key);
      var cutoff := now - window;
      var slice := attempts[key];
      var n := Compact(slice.buf, slice.len, cutoff);
      forall k <- attempts | k != key ensures Holds(k) {
        assert old(Holds(k));
      }
      kept := Shrink(key, n, cutoff);
    }

    /** The end of purgeLocked: the key keeps its first `n` elements, or goes if there are none. */
    method Shrink(key: string, n: nat, ghost cutoff: int) returns (kept: Slice)
      requires key in attempts && lists.Keys == attempts.Keys
      requires forall k <- attempts | k != key :: Holds(k)
      requires attempts[key].Slice? && attempts[key].buf in owner && owner[attempts[key].buf] == key && n <= attempts[key].buf.Length
      requires attempts[key].buf[..n] == Recent(lists[key], cutoff)
      modifies this
      ensures Valid() && owner == old(owner)
      ensures lists == Purge(old(lists), key, cutoff)
      ensures kept == if key in attempts then attempts[key] else Nil
    {
      var buf := attempts[key].buf;
      lists := Purge(lists, key, cutoff);
      if n == 0 {
        attempts := attempts - {key};
        kept := Nil;
      } else {
        kept := Slice(buf, n);
        attempts := attempts[key := kept];
      }
      forall k <- attempts ensures Holds(k) {
        assert k != key ==> old(Holds(k));
      }
    }

    /** attempts[key] = append(kept, now), after a purge of `key` returned `kept`. */
    method Record(key: string, kept: Slice, now: int)
      requires Valid() && kept == if key in attempts then attempts[key] else Nil
      modifies this, owner.Keys
      ensures Valid() && fresh(owner.Keys - old(owner.Keys))
      ensures lists == old(lists)[key := Get(old(lists), key) + [now]]
    {
      assert key in attempts ==> Holds(key);
      var slice := Append(kept, now);
      forall k <- attempts | k != key ensures Holds(k) {
        assert old(Holds(k));
      }
      Store(key, slice, Get(lists, key) + [now]);
    }

    method Store(key: string, slice: Slice, ghost list: seq<int>)
      requires lists.Keys == attempts.Keys && slice.Slice?
      requires forall k <- attempts | k != key :: Holds(k) && attempts[k].buf != slice.buf
      requires 0 < slice.len <= slice.buf.Length && slice.buf[..slice.len] == list
      modifies this
      ensures Valid() && lists == old(lists)[key := list] && owner == old(owner)[slice.buf := key]
    {
      attempts := attempts[key := slice];
      lists := lists[key := list];
      owner := owner[slice.buf := key];
      forall k <- attempts ensures Holds(k) {
        assert k != key ==> old(Holds(k));
      }
    }

    method Allow(key: string, t1: int, t2: int) returns (ok: bool)
      requires Valid()
      modifies this, owner.Keys
      ensures Valid() && fresh(owner.Keys - old(owner.Keys))
      ensures (lists, Said(ok)) == Call(old(lists), RateLimit.Allow(key, t1, t2), max, window)
    {
      var kept := PurgeLocked(key, t1);
      assert key in attempts ==> Holds(key);
      var len := if kept.Nil? then 0 else kept.len;
      if len >= max {
        return false;
      }
      Record(key, kept, t2);
      ok := true;
    }

    method Blocked(key: string, t1: int) returns (yes: bool)
      requires Valid()
      modifies this, owner.Keys
      ensures Valid() && owner == old(owner)
      ensures (lists, Said(yes)) == Call(old(lists), RateLimit.Blocked(key, t1), max, window)
    {
      var kept := PurgeLocked(key, t1);
      assert key in attempts ==> Holds(key);
      yes := (if kept.Nil? then 0 else kept.len) >= max;
    }

    method RecordFailure(key: string, t1: int, t2: int)
      requires Valid()
      modifies this, owner.Keys
      ensures Valid() && fresh(owner.Keys - old(owner.Keys))
      ensures lists == Call(old(lists), RateLimit.RecordFailure(key, t1, t2), max, window).0
    {
      ghost var before := lists;
      var kept := PurgeLocked(key, t1);
      ghost var purged := lists;
      assert purged == Purge(before, key, t1 - window);
      Record(key, kept, t2);
      RecordFailureLists(before, key, t1, t2, max, window);
    }

    method Reset(key: string)
      requires Valid()
      modifies this
      ensures Valid() && owner == old(owner)
      ensures lists == Call(old(lists), RateLimit.Reset(key), max, window).0
    {
      attempts := attempts - {key};
      lists := lists - {key};
    }
  }
}
