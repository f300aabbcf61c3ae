/** The decoded response dictionary and its in-place `pop(key, default)`. */
module PyDict {
  import opened Json

  /** What `pop` hands back and what it leaves behind. */
  datatype Popped = Popped(value: Value, rest: map<string, Value>)

  /** `d.pop(key, default)` on a dictionary holding `m`: the value under `key` (or `default`
      when `key` is absent), and the dictionary with exactly that key removed. */
  function PopFrom(m: map<string, Value>, key: string, default: Value): (p: Popped)
    ensures key in m ==> p.value == m[key]
    ensures key !in m ==> p.value == default
    ensures p.rest.Keys == m.Keys - {key}
    ensures forall k :: k in p.rest ==> p.rest[k] == m[k]
  {
    Popped(if key in m then m[key] else default, m - {key})
  }

  /** Putting the popped entry back restores the dictionary; when the key was absent,
      nothing changed. */
  lemma PopRestore(m: map<string, Value>, key: string, default: Value)
    ensures key in m ==> PopFrom(m, key, default).rest[key := PopFrom(m, key, default).value] == m
    ensures key !in m ==> PopFrom(m, key, default).rest == m
  {
    var p := PopFrom(m, key, default);
    if key in m {
      assert p.rest[key := p.value].Keys == m.Keys;
    } else {
      assert p.rest.Keys == m.Keys;
    }
  }

  /** A Python `dict` the handler owns and changes in place. */
  class Dict {
    var entries: map<string, Value>

    constructor (m: map<string, Value>)
      ensures entries == m
    {
      entries := m;
    }

    /** Removes `key` and returns its value, or returns `default` and leaves the entries alone. */
    method Pop(key: string, default: Value) returns (v: Value)
      modifies this
      ensures PopFrom(old(entries), key, default) == Popped(v, entries)
    {
      if key in entries {
        v := entries[key];
      } else {
        v := default;
      }
      entries := entries - {key};
    }
  }
}
