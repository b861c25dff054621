/** The rolling log of frontend/src/main.js: `[entry, ...requestLog].slice(0, 6)`
    puts the newest entry first and keeps at most six. */
module RequestLog {

  const Capacity: nat := 6

  function Min(a: int, b: int): int {
    if a <= b then a else b
  }

  /** The log after one `addLog(entry)`. */
  function Push<T>(log: seq<T>, entry: T): (r: seq<T>)
    ensures |r| == Min(|log| + 1, Capacity)
    ensures r[0] == entry
    ensures forall i :: 1 <= i < |r| ==> r[i] == log[i - 1]
  {
    ([entry] + log)[..Min(|log| + 1, Capacity)]
  }

  /** The log of a freshly loaded page after the entries `es` were added in
      order, the first one first. */
  function Replay<T>(es: seq<T>): seq<T> {
    if es == [] then [] else Push(Replay(es[..|es| - 1]), es[|es| - 1])
  }

  /** However many entries were added, the log holds the last
      `min(count, 6)` of them, newest first. */
  lemma {:induction false} ReplayKeepsNewest<T>(es: seq<T>)
    ensures |Replay(es)| == Min(|es|, Capacity)
    ensures forall i :: 0 <= i < |Replay(es)| ==> Replay(es)[i] == es[|es| - 1 - i]
  {
    if es != [] {
      var prefix := es[..|es| - 1];
      ReplayKeepsNewest(prefix);
      var r := Replay(es);
      forall i | 0 <= i < |r|
        ensures r[i] == es[|es| - 1 - i]
      {
        if i > 0 {
          assert r[i] == Replay(prefix)[i - 1] == prefix[|prefix| - 1 - (i - 1)];
        }
      }
    }
  }

  /** After more than six additions the log is exactly the last six, in
      reverse order of addition. */
  lemma LongReplay<T>(es: seq<T>)
    requires |es| > Capacity
    ensures Replay(es) == [es[|es| - 1], es[|es| - 2], es[|es| - 3],
                           es[|es| - 4], es[|es| - 5], es[|es| - 6]]
  {
    ReplayKeepsNewest(es);
  }

  /** The same entry added twice is kept twice: there is no deduplication. */
  lemma NoDeduplication<T>(log: seq<T>, entry: T)
    ensures |Push(Push(log, entry), entry)| >= 2
    ensures Push(Push(log, entry), entry)[0] == entry && Push(Push(log, entry), entry)[1] == entry
  {
  }
}
