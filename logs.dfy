/**
 * The in-memory log buffer (bg/logs.js; background.js repeats the same
 * buffer logic, writing to storage without the try/catch): the newest
 * `MaxLogs` entries, oldest first.
 */
module Logs {

  /** `MAX_LOGS` */
  const MaxLogs: nat := 1000

  /** The `data` argument of `pushLog`, as far as the buffer cares: `null`, `undefined`, or some value. */
  datatype JsValue = Null | Undefined | Value(repr: string)

  /** A log entry: `{ ts, level, message, data }`. */
  datatype Entry = Entry(ts: string, level: string, message: string, data: JsValue)

  /**
   * The entry `pushLog` builds; `data ?? null` stores `null` for a nullish
   * argument and the argument itself otherwise. The timestamp is an input.
   */
  function MakeEntry(ts: string, level: string, message: string, data: JsValue): (e: Entry)
    ensures e.ts == ts && e.level == level && e.message == message
    ensures e.data.Null? <==> data.Null? || data.Undefined?
    ensures !e.data.Undefined?
    ensures !(data.Null? || data.Undefined?) ==> e.data == data
  {
    Entry(ts, level, message, if data.Undefined? then Null else data)
  }

  /** `s.slice(-n)`: the last `n` elements, or all of `s` when it is shorter. */
  function LastN<T>(s: seq<T>, n: nat): (r: seq<T>)
    ensures |r| == if |s| <= n then |s| else n
    ensures s == s[..|s| - |r|] + r
  {
    if |s| <= n then s else s[|s| - n..]
  }

  /**
   * The buffer after one `push` and the `shift` that follows when it has grown
   * past `MaxLogs`.
   */
  function Push(logs: seq<Entry>, e: Entry): (r: seq<Entry>)
    requires |logs| <= MaxLogs
    ensures |r| <= MaxLogs
    ensures |r| > 0 && r[|r| - 1] == e
    ensures |logs| < MaxLogs ==> |r| == |logs| + 1 && r[..|logs|] == logs
    ensures |logs| == MaxLogs ==> |r| == MaxLogs && r[..|r| - 1] == logs[1..]
    ensures r == LastN(logs + [e], MaxLogs)
  {
    var grown := logs + [e];
    if |grown| > MaxLogs then grown[1..] else grown
  }

  /** The buffer after pushing each of `es` in turn. */
  function PushAll(logs: seq<Entry>, es: seq<Entry>): (r: seq<Entry>)
    requires |logs| <= MaxLogs
    ensures |r| <= MaxLogs
    decreases |es|
  {
    if es == [] then logs else PushAll(Push(logs, es[0]), es[1..])
  }

  /**
   * However many entries are pushed, the buffer holds exactly the newest
   * `MaxLogs` of everything it has seen, in the order they were pushed.
   */
  lemma {:induction false} PushAllKeepsNewest(logs: seq<Entry>, es: seq<Entry>)
    requires |logs| <= MaxLogs
    ensures PushAll(logs, es) == LastN(logs + es, MaxLogs)
    decreases |es|
  {
    if es == [] {
      assert logs + es == logs;
    } else {
      var grown := logs + [es[0]];
      var next := Push(logs, es[0]);
      assert PushAll(logs, es) == PushAll(next, es[1..]);
      PushAllKeepsNewest(next, es[1..]);
      LastNOfLastN(grown, es[1..], MaxLogs);
      AppendHead(logs, es);
    }
  }

  lemma AppendHead<T>(s: seq<T>, es: seq<T>)
    requires es != []
    ensures s + [es[0]] + es[1..] == s + es
  {
    assert [es[0]] + es[1..] == es;
  }

  /** Cutting a prefix off before appending does not change the newest `n`. */
  lemma LastNOfLastN<T>(s: seq<T>, rest: seq<T>, n: nat)
    ensures LastN(LastN(s, n) + rest, n) == LastN(s + rest, n)
  {
    if |s| > n {
      var k := |s| - n;
      var t := s[k..];
      var u, v := s + rest, t + rest;
      assert u == s[..k] + v;
      assert LastN(s, n) == t;
      assert LastN(u, n) == u[|u| - n..];
      assert u[|u| - n..] == v[|v| - n..];
      assert LastN(v, n) == v[|v| - n..];
    }
  }

  /** The module array `LOGS`. */
  class LogBuffer {
    var entries: seq<Entry>

    ghost predicate Valid()
      reads this
    {
      |entries| <= MaxLogs
    }

    constructor()
      ensures Valid() && entries == []
    {
      entries := [];
    }

    /**
     * `pushLog(level, message, data)` at time `ts`: append the entry, drop the
     * oldest one past capacity, and hand back what is written to storage
     * (`LOGS.slice(-MAX_LOGS)`), which is the whole buffer.
     */
    method PushLog(ts: string, level: string, message: string, data: JsValue) returns (persisted: seq<Entry>)
      requires Valid()
      modifies this
      ensures Valid()
      ensures entries == Push(old(entries), MakeEntry(ts, level, message, data))
      ensures persisted == entries
    {
      var entry := MakeEntry(ts, level, message, data);
      entries := entries + [entry];
      if |entries| > MaxLogs {
        entries := entries[1..];
      }
      persisted := LastN(entries, MaxLogs);
    }
  }
}
