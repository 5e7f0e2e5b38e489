/**
 ourPersonality of examples/ExceptionDemo/ExceptionDemo.cpp: what the unwinder is told
 about a frame, from the frame's decoded language specific data, in the phase that
 searches for a handler and in the phase that cleans up.
 */
module UnwindPersonality {
  /** A thrown object: whether its exception class is ours, and the type of its type info if so. */
  datatype Exn = Exn(ours: bool, kind: int)

  /** A call site: its range, its landing pad (0 for none) and its chain of type offsets, in which 0 is a cleanup. */
  datatype CallSite = CallSite(start: nat, length: nat, landingPad: nat, actions: seq<nat>)

  /** Decoded language specific data; type offset o > 0 stands for classInfo[o - 1]. */
  datatype Lsda = NoLsda | Lsda(callSites: seq<CallSite>, classInfo: seq<int>)

  datatype Reason = ContinueUnwind | HandlerFound | InstallContext(landingPad: nat, selector: nat)

  predicate InTable(classInfo: seq<int>, actions: seq<nat>) {
    forall j :: 0 <= j < |actions| ==> actions[j] <= |classInfo|
  }

  predicate WellFormed(lsda: Lsda) {
    lsda.Lsda? ==> forall s :: 0 <= s < |lsda.callSites| ==> InTable(lsda.classInfo, lsda.callSites[s].actions)
  }

  /** Entry j of a chain names the type of an exception. */
  predicate Names(classInfo: seq<int>, actions: seq<nat>, j: int, kind: int)
    requires InTable(classInfo, actions)
  {
    0 <= j < |actions| && actions[j] > 0 && classInfo[actions[j] - 1] == kind
  }

  /** One more than the first entry, from i on, that names a type; 0 if there is none. */
  function Matching(classInfo: seq<int>, actions: seq<nat>, kind: int, i: nat): nat
    requires InTable(classInfo, actions)
    decreases |actions| - i
  {
    if i >= |actions| then 0 else if Names(classInfo, actions, i, kind) then i + 1 else Matching(classInfo, actions, kind, i + 1)
  }

  lemma {:induction false} MatchingIsFirst(classInfo: seq<int>, actions: seq<nat>, kind: int, i: nat)
    requires InTable(classInfo, actions)
    ensures var m := Matching(classInfo, actions, kind, i);
            if m == 0 then forall j :: i <= j ==> !Names(classInfo, actions, j, kind)
            else i <= m - 1 && Names(classInfo, actions, m - 1, kind) && forall j :: i <= j < m - 1 ==> !Names(classInfo, actions, j, kind)
    decreases |actions| - i
  {
    if i < |actions| && !Names(classInfo, actions, i, kind) {
      MatchingIsFirst(classInfo, actions, kind, i + 1);
    }
  }

  method HandleActionValue(classInfo: seq<int>, actions: seq<nat>, ex: Exn) returns (matched: bool, resultAction: nat)
    requires InTable(classInfo, actions)
    ensures resultAction == (if ex.ours then Matching(classInfo, actions, ex.kind, 0) else 0)
    ensures matched == (resultAction > 0)
  {
    matched, resultAction := false, 0;
    if !ex.ours {
      return;
    }
    for i := 0 to |actions|
      invariant !matched && resultAction == 0
      invariant Matching(classInfo, actions, ex.kind, 0) == Matching(classInfo, actions, ex.kind, i)
    {
      if actions[i] > 0 && classInfo[actions[i] - 1] == ex.kind {
        return true, i + 1;
      }
    }
  }

  /** A call site that decides about an address: it covers it and has a landing pad. */
  predicate Covers(s: CallSite, pc: nat) { s.landingPad != 0 && s.start <= pc < s.start + s.length }

  /** The first such call site. */
  function SiteFor(sites: seq<CallSite>, pc: nat): (i: nat)
    ensures i <= |sites|
    ensures i < |sites| ==> Covers(sites[i], pc)
    ensures forall j :: 0 <= j < i ==> !Covers(sites[j], pc)
  {
    if sites == [] then 0 else if Covers(sites[0], pc) then 0 else 1 + SiteFor(sites[1..], pc)
  }

  function Selector(lsda: Lsda, ex: Exn, s: nat): nat
    requires lsda.Lsda? && WellFormed(lsda) && s < |lsda.callSites|
  {
    if ex.ours then Matching(lsda.classInfo, lsda.callSites[s].actions, ex.kind, 0) else 0
  }

  /** What the unwinder is told. */
  function Answer(lsda: Lsda, search: bool, ex: Exn, pc: nat): Reason
    requires WellFormed(lsda)
  {
    if lsda.NoLsda? then ContinueUnwind
    else
      var s := SiteFor(lsda.callSites, pc);
      if s == |lsda.callSites| then ContinueUnwind
      else if !search then InstallContext(lsda.callSites[s].landingPad, Selector(lsda, ex, s))
      else if Selector(lsda, ex, s) > 0 then HandlerFound else ContinueUnwind
  }

  /** Cleanup enters the frame with the selector of a clause. */
  predicate EntersHandler(lsda: Lsda, ex: Exn, pc: nat)
    requires WellFormed(lsda)
  {
    var r := Answer(lsda, false, ex, pc);
    r.InstallContext? && r.selector > 0
  }

  method HandleLsda(lsda: Lsda, search: bool, ex: Exn, pc: nat) returns (ret: Reason)
    requires WellFormed(lsda)
    ensures ret == Answer(lsda, search, ex, pc)
    ensures lsda.Lsda? && ret != ContinueUnwind ==>
              exists s :: 0 <= s < |lsda.callSites| && lsda.callSites[s].landingPad != 0 &&
                lsda.callSites[s].start <= pc < lsda.callSites[s].start + lsda.callSites[s].length
    ensures lsda.Lsda? ==> forall s :: 0 <= s < |lsda.callSites| ==>
              (&& lsda.callSites[s].landingPad != 0
               && lsda.callSites[s].start <= pc < lsda.callSites[s].start + lsda.callSites[s].length
               && (forall j :: 0 <= j < s && lsda.callSites[j].landingPad != 0 ==>
                     !(lsda.callSites[j].start <= pc < lsda.callSites[j].start + lsda.callSites[j].length)))
              ==>
                var m := if ex.ours then Matching(lsda.classInfo, lsda.callSites[s].actions, ex.kind, 0) else 0;
                ret == if !search then InstallContext(lsda.callSites[s].landingPad, m)
                       else if m > 0 then HandlerFound else ContinueUnwind
    ensures search ==> (ret == HandlerFound <==> EntersHandler(lsda, ex, pc))
  {
    ret := ContinueUnwind;
    if lsda.NoLsda? {
      return;
    }
    var s := 0;
    while s < |lsda.callSites|
      invariant s <= |lsda.callSites| && ret == ContinueUnwind
      invariant forall j :: 0 <= j < s ==> !Covers(lsda.callSites[j], pc)
    {
      var site := lsda.callSites[s];
      var actions := if ex.ours then site.actions else [];
      if site.landingPad == 0 {
        s := s + 1;
        continue;
      }
      if site.start <= pc < site.start + site.length {
        var matched, actionValue := false, 0;
        if actions != [] {
          matched, actionValue := HandleActionValue(lsda.classInfo, actions, ex);
        }
        if !search {
          ret := InstallContext(site.landingPad, if actions == [] || !matched then 0 else actionValue);
        } else if matched {
          ret := HandlerFound;
        }
        SiteIsFirst(lsda.callSites, s, pc);
        return;
      }
      s := s + 1;
    }
  }

  lemma SiteIsFirst(sites: seq<CallSite>, s: nat, pc: nat)
    requires s < |sites| && Covers(sites[s], pc) && forall j :: 0 <= j < s ==> !Covers(sites[j], pc)
    ensures SiteFor(sites, pc) == s
  {
  }
}
