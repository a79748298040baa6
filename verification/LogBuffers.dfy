/** The bounded in-memory log buffers, one per key, against all that was ever appended. */
module LogBuffers {

  const BUFFER_MAX := 500

  /** The last `n` entries, or all if there are fewer. */
  function LastN<T>(s: seq<T>, n: nat): seq<T> {
    if |s| <= n then s else s[|s| - n..]
  }

  function Get<T>(buffers: map<string, seq<T>>, key: string): seq<T> {
    if key in buffers then buffers[key] else []
  }

  function Add<T>(buffers: map<string, seq<T>>, key: string, entry: T): map<string, seq<T>> {
    buffers[key := LastN(Get(buffers, key) + [entry], BUFFER_MAX)]
  }

  class Buffers<T> {
    var buffers: map<string, seq<T>>

    constructor ()
      ensures buffers == map[]
    {
      buffers := map[];
    }

    method AddToBuffer(key: string, entry: T)
      modifies this
      ensures buffers == Add(old(buffers), key, entry)
    {
      var buf := if key in buffers then buffers[key] else [];
      buf := buf + [entry];
      if |buf| > BUFFER_MAX {
        buf := buf[|buf| - BUFFER_MAX..];
      }
      buffers := buffers[key := buf];
    }
  }

  /** The buffers after a list of appends. */
  function AddAll<T>(buffers: map<string, seq<T>>, items: seq<(string, T)>): map<string, seq<T>>
    decreases |items|
  {
    if items == [] then buffers else AddAll(Add(buffers, items[0].0, items[0].1), items[1..])
  }

  /** The entries that a list of appends has for one key, in order. */
  function Under<T>(items: seq<(string, T)>, key: string): seq<T> {
    if items == [] then [] else (if items[0].0 == key then [items[0].1] else []) + Under(items[1..], key)
  }

  /** Keeping the last `n` after every append is keeping the last `n` of everything. */
  lemma LastNConcat<T>(s: seq<T>, x: seq<T>, n: nat)
    ensures LastN(LastN(s, n) + x, n) == LastN(s + x, n)
  {
    if |s| > n {
      assert s + x == s[..|s| - n] + (LastN(s, n) + x);
    }
  }

  lemma Regroup<T>(a: seq<T>, x: T, b: seq<T>)
    ensures a + ([x] + b) == (a + [x]) + b
  {
  }

  lemma {:induction false} AddAllGet<T>(buffers: map<string, seq<T>>, items: seq<(string, T)>, key: string)
    requires |Get(buffers, key)| <= BUFFER_MAX
    ensures Get(AddAll(buffers, items), key) == LastN(Get(buffers, key) + Under(items, key), BUFFER_MAX)
    decreases |items|
  {
    var before := Get(buffers, key);
    if items == [] {
      assert before + Under(items, key) == before;
    } else {
      var k, entry, rest := items[0].0, items[0].1, Under(items[1..], key);
      var next := Add(buffers, k, entry);
      AddAllGet(next, items[1..], key);
      if k == key {
        LastNConcat(before + [entry], rest, BUFFER_MAX);
        Regroup(before, entry, rest);
        assert Get(next, key) == LastN(before + [entry], BUFFER_MAX);
      } else {
        assert Under(items, key) == rest;
        assert Get(next, key) == before;
      }
    }
  }

  lemma EmptyLeft<T>(s: seq<T>)
    ensures [] + s == s
  {
  }

  lemma LastNSuffix<T>(s: seq<T>, n: nat)
    ensures var kept := LastN(s, n);
            |kept| == (if |s| < n then |s| else n) && s == s[..|s| - |kept|] + kept
  {
  }

  /** After any list of appends under any keys, each buffer holds exactly the last 500 entries
      appended under its key, in order, or all of them if there were fewer. */
  lemma BufferRefinement<T>(items: seq<(string, T)>, key: string)
    ensures var all := Under(items, key);
            var kept := Get(AddAll(map[], items), key);
            && |kept| == (if |all| < 500 then |all| else 500)
            && all == all[..|all| - |kept|] + kept
  {
    var all := Under(items, key);
    AddAllGet(map[], items, key);
    EmptyLeft(all);
    LastNSuffix(all, BUFFER_MAX);
  }
}
