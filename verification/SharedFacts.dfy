/** The two loops' loads, visits and saves, one by one, and what a copy that is not stale holds. */
module SharedFacts {
  import opened Common
  import opened Pullback
  import opened SharedEvent

  /** A load takes the row; a visit works on its own loop's copy and sends what it sends; a save overwrites the row with
      the whole copy.  Nothing else changes an event. */
  lemma StepIsExact(s: Sys, step: Step, c: Config)
    ensures var after := Apply(s, step, c);
            match step
            case Load(Scan) =>
              && after.stored == s.stored && after.log == s.log
              && after.scan.event == s.stored && after.fast.event == s.fast.event
            case Load(Fast) =>
              && after.stored == s.stored && after.log == s.log
              && after.fast.event == s.stored && after.scan.event == s.scan.event
            case Visit(ByScan(p)) =>
              && after.stored == s.stored && after.fast.event == s.fast.event
              && after.scan.event == Process(s.scan.event, p, c).0 && after.log == s.log + Process(s.scan.event, p, c).1
            case Visit(ByFast(signalId, at)) =>
              && after.stored == s.stored && after.scan.event == s.scan.event
              && after.fast.event == FastSignal(s.fast.event, Some(signalId), at, c).0
              && after.log == s.log + FastSignal(s.fast.event, Some(signalId), at, c).1
            case Save(Scan) =>
              && after.stored == s.scan.event && after.log == s.log
              && after.scan.event == s.scan.event && after.fast.event == s.fast.event
            case Save(Fast) =>
              && after.stored == s.fast.event && after.log == s.log
              && after.scan.event == s.scan.event && after.fast.event == s.fast.event
  {
  }

  /** A copy that was not visited since it was loaded or saved, and is not stale, is the row as it is. */
  predicate IsFresh(s: Sys, copy: Copy) { !copy.visited && !copy.stale ==> copy.event == s.stored }

  lemma StepKeepsFresh(s: Sys, step: Step, c: Config)
    requires IsFresh(s, s.scan) && IsFresh(s, s.fast)
    ensures IsFresh(Apply(s, step, c), Apply(s, step, c).scan) && IsFresh(Apply(s, step, c), Apply(s, step, c).fast)
  {
  }

  /** This holds in every run, however the two loops take turns. */
  lemma {:induction false} CopiesAreFresh(e: Event, steps: seq<Step>, c: Config)
    ensures IsFresh(Run(Start(e), steps, c), Run(Start(e), steps, c).scan)
    ensures IsFresh(Run(Start(e), steps, c), Run(Start(e), steps, c).fast)
  {
    if steps != [] {
      CopiesAreFresh(e, steps[..|steps| - 1], c);
      StepKeepsFresh(Run(Start(e), steps[..|steps| - 1], c), steps[|steps| - 1], c);
    }
  }
}
