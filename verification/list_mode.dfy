/**
 The list-driven send flow: every profile address taken from the sheet,
 cut to the caller's limit, is visited once. The Connect control is
 resolved (the direct button, then the More menu), the invitation is sent
 with or without a personalised note, and the profile counts only when no
 Connect button is found afterwards.

 What the browser shows on each visit is an input `ProfileVisit`; the flow
 is a pure fold over those observations.
 */
module ListMode {
  import opened Fallback
  import opened Options
  import opened Naming
  import Sheet

  /** What one visit to a profile address observes, step by step. */
  datatype ProfileVisit = ProfileVisit(
    load: Step,            // opening the address
    directLookup: Step,    // waiting for an enabled Connect button and scrolling to it
    directClick: ClickObs, // robust_click on that button
    moreLookup: Step,      // More button, its click, the Connect menu item, scrolling
    menuClick: ClickObs,   // robust_click on the menu item
    noteBox: Step,         // "Add a note" clicked and the message box present
    headline: Option<string>, // the profile heading's text; None when reading it raised
    noteSend: Step,        // typing the note, finding and script-clicking "Send invitation"
    sendNow: Step,         // waiting for and clicking "Send now" / "Send without a note"
    connectRemains: bool   // the confirmation lookup still finds a Connect button
  )

  /** Which control opened the invitation dialog, and which click channel
      activated it. */
  datatype ConnectRoute = DirectButton(stage: Stage) | MoreMenu(stage: Stage)

  /** How resolving the Connect control ended. */
  datatype Resolution = Activated(route: ConnectRoute) | NotFound | Escaped(fault: Fault)

  /** Whether an invitation was submitted, and with which note. */
  datatype Delivery = Delivered(note: Option<string>) | Undelivered

  /** The outcome of one profile. Only `Sent` is counted. */
  datatype UrlOutcome =
    | Sent(route: ConnectRoute, note: Option<string>)
    | StillPending(route: ConnectRoute)  // submitted, but the Connect button is still there
    | NoConnectControl                   // both lookups timed out: skipped
    | NotSent(route: ConnectRoute)       // no send control could be activated: skipped
    | Dropped(fault: Fault)              // an exception reached the per-profile handler

  datatype ListRun = ListRun(outcomes: seq<UrlOutcome>, successful: nat)

  /** The direct Connect button first; the More menu only when the direct
      attempt timed out. A timeout in the menu path skips the profile; any
      other exception escapes to the per-profile handler. */
  function ResolveConnect(v: ProfileVisit): (r: Resolution)
    ensures r.Activated? && r.route.DirectButton? <==>
      v.directLookup.Ok? && RobustClick(v.directClick).Done?
    ensures r.Activated? && r.route.MoreMenu? ==>
      LocateAndClick(v.directLookup, v.directClick) == Raised(Timeout)
    ensures r == NotFound <==>
      LocateAndClick(v.directLookup, v.directClick) == Raised(Timeout)
      && LocateAndClick(v.moreLookup, v.menuClick) == Raised(Timeout)
    ensures (LocateAndClick(v.directLookup, v.directClick) == Raised(Timeout)
             && LocateAndClick(v.moreLookup, v.menuClick).Done?) ==>
      r == Activated(MoreMenu(LocateAndClick(v.moreLookup, v.menuClick).stage))
    ensures (LocateAndClick(v.directLookup, v.directClick).Raised?
             && LocateAndClick(v.directLookup, v.directClick).fault != Timeout) ==>
      r == Escaped(LocateAndClick(v.directLookup, v.directClick).fault)
    ensures (LocateAndClick(v.directLookup, v.directClick) == Raised(Timeout)
             && LocateAndClick(v.moreLookup, v.menuClick).Raised?
             && LocateAndClick(v.moreLookup, v.menuClick).fault != Timeout) ==>
      r == Escaped(LocateAndClick(v.moreLookup, v.menuClick).fault)
  {
    var direct := LocateAndClick(v.directLookup, v.directClick);
    if direct.Done? then Activated(DirectButton(direct.stage))
    else if direct.fault != Timeout then Escaped(direct.fault)
    else
      var more := LocateAndClick(v.moreLookup, v.menuClick);
      if more.Done? then Activated(MoreMenu(more.stage))
      else if more.fault == Timeout then NotFound
      else Escaped(more.fault)
  }

  /** With a note requested: open the note box, type the personalised letter
      and send; if any of that raises, fall back to "Send now" / "Send without
      a note". Without a note: that send control directly. */
  function Deliver(v: ProfileVisit, letter: string, includeNotes: bool): (d: Delivery)
    ensures d.Delivered? && d.note.Some? ==>
      includeNotes && v.noteBox.Ok? && v.noteSend.Ok?
      && d.note.value == Personalize(letter, HeadlineName(v.headline))
    ensures d.Delivered? <==>
      v.sendNow.Ok? || (includeNotes && v.noteBox.Ok? && v.noteSend.Ok?)
    ensures d.Delivered? && d.note.None? ==> v.sendNow.Ok?
    ensures includeNotes && v.noteBox.Ok? && v.noteSend.Ok? ==>
      d == Delivered(Some(Personalize(letter, HeadlineName(v.headline))))
  {
    if includeNotes then
      if v.noteBox.Ok? && v.noteSend.Ok? then
        Delivered(Some(Personalize(letter, HeadlineName(v.headline))))
      else if v.sendNow.Ok? then Delivered(None)
      else Undelivered
    else if v.sendNow.Ok? then Delivered(None)
    else Undelivered
  }

  /** One iteration of the loop over profile addresses. */
  function VisitProfile(v: ProfileVisit, letter: string, includeNotes: bool): (o: UrlOutcome)
    ensures o.Dropped? <==> v.load.Raise? || ResolveConnect(v).Escaped?
    ensures o == NoConnectControl <==> v.load.Ok? && ResolveConnect(v) == NotFound
    ensures o.NotSent? <==> v.load.Ok? && ResolveConnect(v).Activated? && Deliver(v, letter, includeNotes).Undelivered?
    ensures o.StillPending? <==>
      v.load.Ok? && ResolveConnect(v).Activated? && Deliver(v, letter, includeNotes).Delivered? && v.connectRemains
    ensures o.Sent? ==> o.route == ResolveConnect(v).route && o.note == Deliver(v, letter, includeNotes).note
  {
    if v.load.Raise? then Dropped(v.load.fault)
    else
      match ResolveConnect(v)
      case Escaped(f) => Dropped(f)
      case NotFound => NoConnectControl
      case Activated(route) =>
        match Deliver(v, letter, includeNotes)
        case Undelivered => NotSent(route)
        case Delivered(note) =>
          if v.connectRemains then StillPending(route) else Sent(route, note)
  }

  /** Number of counted outcomes. */
  function SentCount(outcomes: seq<UrlOutcome>): (n: nat)
    ensures n <= |outcomes|
  {
    if |outcomes| == 0 then 0
    else (if outcomes[0].Sent? then 1 else 0) + SentCount(outcomes[1..])
  }

  /** `send_connection_request_to_urls`: visit every address in order; each
      visit adds at most one to the tally. */
  function SendToUrls(visits: seq<ProfileVisit>, letter: string, includeNotes: bool): (r: ListRun)
    ensures |r.outcomes| == |visits|
    ensures forall i :: 0 <= i < |visits| ==>
      r.outcomes[i] == VisitProfile(visits[i], letter, includeNotes)
    ensures r.successful == SentCount(r.outcomes)
    ensures r.successful <= |visits|
  {
    if |visits| == 0 then ListRun([], 0)
    else
      var head := VisitProfile(visits[0], letter, includeNotes);
      var rest := SendToUrls(visits[1..], letter, includeNotes);
      ListRun([head] + rest.outcomes, (if head.Sent? then 1 else 0) + rest.successful)
  }

  /** The sheet-driven run: the column filter, then `[:limit]`, then the visits
      (one observation per remaining address). */
  function RunFromSheet(records: seq<Sheet.Row>, column: string, limit: int,
                        letter: string, includeNotes: bool, visits: seq<ProfileVisit>): (r: ListRun)
    requires |visits| == |Sheet.PyPrefix(Sheet.FilterColumn(records, column), limit)|
    ensures r.successful <= |visits| <= |records|
    ensures limit >= 0 ==> r.successful <= limit
    ensures limit < 0 ==> r.successful <= |records| + limit || r.successful == 0
  {
    SendToUrls(visits, letter, includeNotes)
  }

  /* ---------------------------------------------------------------------
     Properties of one visit
     --------------------------------------------------------------------- */

  /** A profile is counted exactly when it loaded, its Connect control was
      activated, some send control worked and the confirmation lookup no
      longer finds a Connect button. */
  lemma CountedIffConfirmed(v: ProfileVisit, letter: string, includeNotes: bool)
    ensures VisitProfile(v, letter, includeNotes).Sent? <==>
      && v.load.Ok?
      && ResolveConnect(v).Activated?
      && (v.sendNow.Ok? || (includeNotes && v.noteBox.Ok? && v.noteSend.Ok?))
      && !v.connectRemains
  {
  }

  /** A Connect button still present after sending means not counted, however
      the earlier steps went. */
  lemma ConnectStillPresentNotCounted(v: ProfileVisit, letter: string, includeNotes: bool)
    requires v.connectRemains
    ensures !VisitProfile(v, letter, includeNotes).Sent?
  {
  }

  /** When the direct button is found and clicked, the More menu is never
      consulted: the outcome does not depend on what it would have shown. */
  lemma DirectButtonBeforeMoreMenu(v: ProfileVisit, more: Step, menu: ClickObs,
                                   letter: string, includeNotes: bool)
    requires v.directLookup.Ok? && RobustClick(v.directClick).Done?
    ensures ResolveConnect(v) == Activated(DirectButton(RobustClick(v.directClick).stage))
    ensures VisitProfile(v.(moreLookup := more, menuClick := menu), letter, includeNotes)
         == VisitProfile(v, letter, includeNotes)
  {
  }

  /** After the direct lookup times out, a working More menu activates the
      profile; what the direct button's click would have done is never asked. */
  lemma MoreMenuAfterDirectTimeout(v: ProfileVisit, direct: ClickObs, letter: string, includeNotes: bool)
    requires v.directLookup == Raise(Timeout)
    requires v.moreLookup.Ok? && RobustClick(v.menuClick).Done?
    ensures ResolveConnect(v) == Activated(MoreMenu(RobustClick(v.menuClick).stage))
    ensures VisitProfile(v.(directClick := direct), letter, includeNotes)
         == VisitProfile(v, letter, includeNotes)
  {
  }

  /** A requested note whose box and send steps work is the invitation that
      goes out: the plain send control is then never consulted. */
  lemma NoteTriedFirst(v: ProfileVisit, sendNow: Step, letter: string)
    requires v.noteBox.Ok? && v.noteSend.Ok?
    ensures Deliver(v, letter, true) == Delivered(Some(Personalize(letter, HeadlineName(v.headline))))
    ensures VisitProfile(v.(sendNow := sendNow), letter, true) == VisitProfile(v, letter, true)
  {
  }

  /** Both lookups timing out skips the profile without counting it. */
  lemma BothLookupsTimedOutSkips(v: ProfileVisit, letter: string, includeNotes: bool)
    requires v.load.Ok?
    requires v.directLookup == Raise(Timeout) && v.moreLookup == Raise(Timeout)
    ensures VisitProfile(v, letter, includeNotes) == NoConnectControl
  {
  }

  /** A failed note falls back to the plain send control: the visit then ends
      as if no note had been asked for; if that control fails too, the
      profile is skipped. */
  lemma NoteFailureFallsBack(v: ProfileVisit, letter: string)
    requires v.noteBox.Raise? || v.noteSend.Raise?
    ensures VisitProfile(v, letter, true) == VisitProfile(v, letter, false)
    ensures v.load.Ok? && ResolveConnect(v).Activated? && v.sendNow.Raise? ==>
      VisitProfile(v, letter, true) == NotSent(ResolveConnect(v).route)
  {
  }

  /** A counted profile that carries a note carries the personalised letter. */
  lemma SentNoteIsPersonalised(v: ProfileVisit, letter: string, includeNotes: bool)
    requires VisitProfile(v, letter, includeNotes).Sent?
    ensures VisitProfile(v, letter, includeNotes).note.Some? ==>
      includeNotes && VisitProfile(v, letter, includeNotes).note.value
                      == Personalize(letter, HeadlineName(v.headline))
  {
  }

  /* ---------------------------------------------------------------------
     Properties of the run
     --------------------------------------------------------------------- */

  /** The tally counts confirmed profiles one for one, in visiting order:
      appending a visit adds exactly its own contribution. */
  lemma {:induction false} SendToUrlsAppend(visits: seq<ProfileVisit>, v: ProfileVisit,
                                            letter: string, includeNotes: bool)
    ensures SendToUrls(visits + [v], letter, includeNotes).successful
         == SendToUrls(visits, letter, includeNotes).successful
            + (if VisitProfile(v, letter, includeNotes).Sent? then 1 else 0)
    decreases |visits|
  {
    if |visits| > 0 {
      assert (visits + [v])[1..] == visits[1..] + [v];
      SendToUrlsAppend(visits[1..], v, letter, includeNotes);
    }
  }

  /** If every profile is confirmed, every profile is counted. */
  lemma {:induction false} AllConfirmedAllCounted(visits: seq<ProfileVisit>, letter: string, includeNotes: bool)
    requires forall i :: 0 <= i < |visits| ==> VisitProfile(visits[i], letter, includeNotes).Sent?
    ensures SendToUrls(visits, letter, includeNotes).successful == |visits|
    decreases |visits|
  {
    if |visits| > 0 {
      AllConfirmedAllCounted(visits[1..], letter, includeNotes);
    }
  }

  /** A limit of 3 on five addresses whose invitations all go through sends
      exactly three; the last two addresses are never visited. */
  lemma LimitThreeOfFive(records: seq<Sheet.Row>, column: string, letter: string,
                         includeNotes: bool, visits: seq<ProfileVisit>)
    requires |Sheet.FilterColumn(records, column)| == 5
    requires |visits| == 3
    requires forall i :: 0 <= i < 3 ==> VisitProfile(visits[i], letter, includeNotes).Sent?
    ensures RunFromSheet(records, column, 3, letter, includeNotes, visits).successful == 3
  {
    AllConfirmedAllCounted(visits, letter, includeNotes);
  }

  /** A negative limit drops addresses from the end of the list instead of
      sending nothing: with limit -1 every address but the last is visited. */
  lemma NegativeLimitDropsFromEnd(urls: seq<Sheet.Cell>)
    requires |urls| > 0
    ensures Sheet.PyPrefix(urls, -1) == urls[..|urls| - 1]
    ensures Sheet.PyPrefix(urls, 0) == []
  {
  }
}
