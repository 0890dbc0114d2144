// A log file of one record a line, as engine/jobs.py and engine/events/store.py append to, and what
// a write that breaks off leaves of it.

module LineLogs {
  // How the file ends: with a line break; in the middle of a line; or with a whole record whose line
  // break is missing.
  datatype Tail<+T> = Ended | Torn | Unended(record: T)

  // The readable lines of the file, and its end.
  datatype Log<+T> = Log(lines: seq<T>, tail: Tail<T>)

  function Readable<T>(log: Log<T>): seq<T> {
    if log.tail.Unended? then log.lines + [log.tail.record] else log.lines
  }

  // A record appended to an unended line makes that line unreadable, and is lost with it.
  function Append<T>(log: Log<T>, r: T): Log<T> {
    Log(if log.tail.Ended? then log.lines + [r] else log.lines, Ended)
  }

  function AppendAll<T>(log: Log<T>, records: seq<T>): Log<T> {
    if records == [] then log else Append(AppendAll(log, records[..|records| - 1]), records[|records| - 1])
  }

  // How much of a line is written before a write breaks off.
  datatype Cut = Nothing | Part | AllButBreak

  function CutOff<T>(log: Log<T>, r: T, cut: Cut): Log<T> {
    match cut
    case Nothing => log
    case Part => Log(log.lines, Torn)
    case AllButBreak => Log(log.lines, if log.tail.Ended? then Unended(r) else Torn)
  }

  // A whole record without its line break is read if it stands alone on its line; after any broken
  // line the next record is lost, and the one after it is read.
  lemma CutOffGives<T>(log: Log<T>, r: T, next: T, later: T)
    ensures Readable(CutOff(log, r, Nothing)) == Readable(log)
    ensures Readable(CutOff(log, r, Part)) == log.lines
    ensures Readable(CutOff(log, r, AllButBreak)) == if log.tail.Ended? then log.lines + [r] else log.lines
    ensures forall cut | cut != Nothing :: Readable(Append(CutOff(log, r, cut), next)) == log.lines
    ensures forall cut | cut != Nothing ::
      Readable(Append(Append(CutOff(log, r, cut), next), later)) == log.lines + [later]
  {
  }

  lemma {:induction false} AppendAllGives<T>(log: Log<T>, records: seq<T>)
    ensures records != [] ==>
      AppendAll(log, records) == Log(log.lines + if log.tail.Ended? then records else records[1..], Ended)
  {
    if |records| == 1 {
      assert records[..0] == [] && AppendAll(log, records[..0]) == log && records == [records[0]];
      assert log.lines + [] == log.lines;
    } else if |records| > 1 {
      var front, last := records[..|records| - 1], records[|records| - 1];
      AppendAllGives(log, front);
      assert records == front + [last] && records[1..] == front[1..] + [last];
    }
  }
}
