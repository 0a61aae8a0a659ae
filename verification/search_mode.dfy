/**
 The search-driven send flow (`send_connection_request`): a paged loop over
 the results feed. Each page is checked for the "No free personalized
 invitations left" banner, its Connect (or, in message mode, Message)
 controls are processed in order until the limit is reached, and the loop
 moves to the next page while below the limit.

 The feed is a finite sequence of pages; page 0 is the one on screen when
 the loop starts and the "Next" control is available exactly when a later
 page exists.
 */
module SearchMode {
  import opened Fallback
  import opened Options
  import opened Naming

  /** What one of the three profile-locating strategies finds around a
      control: the profile link's address, its text and its accessibility
      label, or an exception. */
  datatype Locator = Located(href: string, text: string, ariaLabel: string) | LocateRaised

  /** What the browser does for one matched control. */
  datatype ButtonObs = ButtonObs(
    method1: Locator,  // ancestor result container, then a profile link
    method2: Locator,  // ancestor list item, then the titled result link
    method3: Locator,  // any ancestor marked as a result, then a profile link
    press: Step,       // hover with a pointer gesture and click the control
    sendPlain: Step,   // wait for "Send without a note" and click it
    noteBox: Step,     // wait for "Add a note", click it, wait for the message box
    noteSend: Step     // type the note, find "Send invitation", script-click it
  )

  /** One results page: whether scrolling raised, whether the banner is shown,
      whether the query for controls raised, and the controls it matched. */
  datatype Page = Page(scrollRaises: bool, banner: bool, queryRaises: bool, buttons: seq<ButtonObs>)

  datatype SearchConfig = SearchConfig(limit: int, letter: string, includeNotes: bool, messageLetter: string)

  /** The profile a control belongs to, and which strategy found it. */
  datatype Profile = Profile(strategy: nat, url: string, name: string)

  datatype ButtonOutcome =
    | Unresolved         // all three strategies raised: skipped
    | Failed(resolved: Profile)  // a click or send step raised: not counted
    | Counted(profile: Option<Profile>, note: Option<string>, logged: bool)

  /** Why the loop ended. */
  datatype Halt = RateLimited | LimitReached | NoNextPage | PageFault

  datatype SearchRun = SearchRun(count: nat, outcomes: seq<ButtonOutcome>, pagesSeen: nat, halt: Halt)

  predicate MessageMode(cfg: SearchConfig)
  {
    cfg.messageLetter != ""
  }

  /* ---------------------------------------------------------------------
     Locating the profile of a control
     --------------------------------------------------------------------- */

  function AsFound(l: Locator): Option<Locator>
  {
    if l.Located? then Some(l) else None
  }

  /** The name each strategy reads off the link it found. */
  function StrategyName(strategy: nat, l: Locator): string
    requires l.Located?
  {
    if strategy == 3 then LabelOrTextName(l.ariaLabel, l.text) else TitledFirstWord(l.text)
  }

  /** Strategy 1, then 2, then 3; the first that does not raise supplies the
      profile address and name. */
  function ResolveProfile(b: ButtonObs): (r: Option<Profile>)
    ensures b.method1.Located? ==>
      r == Some(Profile(1, b.method1.href, TitledFirstWord(b.method1.text)))
    ensures b.method1.LocateRaised? && b.method2.Located? ==>
      r == Some(Profile(2, b.method2.href, TitledFirstWord(b.method2.text)))
    ensures b.method1.LocateRaised? && b.method2.LocateRaised? && b.method3.Located? ==>
      r == Some(Profile(3, b.method3.href, LabelOrTextName(b.method3.ariaLabel, b.method3.text)))
    ensures r.None? <==> b.method1.LocateRaised? && b.method2.LocateRaised? && b.method3.LocateRaised?
  {
    var tries := [AsFound(b.method1), AsFound(b.method2), AsFound(b.method3)];
    assert tries[0].Some? <==> b.method1.Located?;
    assert tries[1].Some? <==> b.method2.Located?;
    assert tries[2].Some? <==> b.method3.Located?;
    match FirstSuccess(tries)
    case None =>
      assert tries[0].None? && tries[1].None? && tries[2].None?;
      None
    case Some(k) =>
      assert k == 0 || k == 1 || k == 2;
      var found := tries[k].value;
      Some(Profile(k + 1, found.href, StrategyName(k + 1, found)))
  }

  /* ---------------------------------------------------------------------
     One control
     --------------------------------------------------------------------- */

  /** One iteration of the inner loop. In message mode nothing is located or
      clicked and the control is counted; the success log line then raises
      because no profile address was ever bound, which ends the iteration
      after the increment. In connect mode the control counts when its
      profile was located and its click and send steps raised nothing; no
      confirmation is sought. */
  function HandleButton(b: ButtonObs, cfg: SearchConfig): (o: ButtonOutcome)
    ensures MessageMode(cfg) ==> o == Counted(None, None, false)
    ensures !MessageMode(cfg) ==>
      (o.Counted? <==>
        && ResolveProfile(b).Some?
        && b.press.Ok?
        && (if cfg.includeNotes then b.noteBox.Ok? && b.noteSend.Ok? else b.sendPlain.Ok?))
    ensures !MessageMode(cfg) && o.Counted? ==>
      o.logged && o.profile == ResolveProfile(b)
      && (o.note.Some? <==> cfg.includeNotes)
      && (o.note.Some? ==> o.note.value == Personalize(cfg.letter, o.profile.value.name))
    ensures o == Unresolved <==> !MessageMode(cfg) && ResolveProfile(b).None?
  {
    if MessageMode(cfg) then Counted(None, None, false)
    else
      match ResolveProfile(b)
      case None => Unresolved
      case Some(p) =>
        if b.press.Raise? then Failed(p)
        else if !cfg.includeNotes then
          if b.sendPlain.Raise? then Failed(p) else Counted(Some(p), None, true)
        else if b.noteBox.Raise? || b.noteSend.Raise? then Failed(p)
        else Counted(Some(p), Some(Personalize(cfg.letter, p.name)), true)
  }

  /** Number of counted outcomes. */
  function Tally(outcomes: seq<ButtonOutcome>): (n: nat)
    ensures n <= |outcomes|
  {
    if |outcomes| == 0 then 0
    else (if outcomes[0].Counted? then 1 else 0) + Tally(outcomes[1..])
  }

  lemma {:induction false} TallyAppend(a: seq<ButtonOutcome>, b: seq<ButtonOutcome>)
    ensures Tally(a + b) == Tally(a) + Tally(b)
    decreases |a|
  {
    if |a| == 0 {
      assert a + b == b;
    } else {
      assert (a + b)[0] == a[0];
      assert (a + b)[1..] == a[1..] + b;
      TallyAppend(a[1..], b);
    }
  }

  /** The inner `for` loop of one page: controls in order, stopping before the
      first one met with the counter already at the limit. */
  function ProcessButtons(bs: seq<ButtonObs>, cfg: SearchConfig, count: nat): (r: (nat, seq<ButtonOutcome>))
    ensures r.0 == count + Tally(r.1)
    ensures |r.1| <= |bs|
    ensures forall i :: 0 <= i < |r.1| ==> r.1[i] == HandleButton(bs[i], cfg)
    ensures count < cfg.limit ==> r.0 <= cfg.limit
    ensures count >= cfg.limit ==> r.0 == count && r.1 == []
    ensures |r.1| < |bs| ==> r.0 >= cfg.limit
    ensures MetBelowLimit(r.1, count, cfg.limit)
    decreases |bs|
  {
    if |bs| == 0 || count >= cfg.limit then (count, [])
    else
      var o := HandleButton(bs[0], cfg);
      var next := if o.Counted? then count + 1 else count;
      var rest := ProcessButtons(bs[1..], cfg, next);
      assert ([o] + rest.1)[1..] == rest.1;
      (rest.0, [o] + rest.1)
  }

  /** Every outcome in `outs` was produced with the counter, started at
      `count` and advanced by each counted outcome, still below `limit`. */
  predicate MetBelowLimit(outs: seq<ButtonOutcome>, count: int, limit: int)
    decreases |outs|
  {
    |outs| == 0
    || (count < limit && MetBelowLimit(outs[1..], count + (if outs[0].Counted? then 1 else 0), limit))
  }

  /** The same property position by position: before each outcome, the
      counter plus the outcomes counted so far is below the limit. */
  lemma {:induction false} MetBelowLimitAtEachControl(outs: seq<ButtonOutcome>, count: int, limit: int)
    requires MetBelowLimit(outs, count, limit)
    ensures forall i :: 0 <= i < |outs| ==> count + Tally(outs[..i]) < limit
    decreases |outs|
  {
    if |outs| > 0 {
      var step := if outs[0].Counted? then 1 else 0;
      MetBelowLimitAtEachControl(outs[1..], count + step, limit);
      forall i | 0 <= i < |outs| ensures count + Tally(outs[..i]) < limit {
        if i > 0 {
          assert outs[..i][0] == outs[0];
          assert outs[..i][1..] == outs[1..][..i - 1];
        }
      }
    }
  }


  /* ---------------------------------------------------------------------
     The paged loop
     --------------------------------------------------------------------- */

  /** Controls on all pages. */
  function TotalButtons(pages: seq<Page>): nat
  {
    if |pages| == 0 then 0 else |pages[0].buttons| + TotalButtons(pages[1..])
  }

  /** What the loop does with the page on screen: it stops when scrolling
      raises, when the banner is shown or when the query for controls raises,
      and otherwise processes the page's controls. A page without controls
      is processed too: nothing happens and Next is tried. */
  datatype PageVisit = Halted(reason: Halt) | Processed(after: nat, outcomes: seq<ButtonOutcome>)

  function VisitPage(page: Page, cfg: SearchConfig, count: nat): (v: PageVisit)
    ensures v.Halted? <==> !Calm(page)
    ensures v == Halted(RateLimited) <==> !page.scrollRaises && page.banner
    ensures v.Halted? ==> v.reason == RateLimited || v.reason == PageFault
    ensures v.Processed? ==> (v.after, v.outcomes) == ProcessButtons(page.buttons, cfg, count)
  {
    if page.scrollRaises then Halted(PageFault)
    else if page.banner then Halted(RateLimited)
    else if page.queryRaises then Halted(PageFault)
    else
      var (after, outcomes) := ProcessButtons(page.buttons, cfg, count);
      Processed(after, outcomes)
  }

  /** The `while` loop, entered with the counter at `count` and the first
      page of `pages` on screen. */
  function SearchLoop(pages: seq<Page>, cfg: SearchConfig, count: nat): (r: SearchRun)
    requires |pages| > 0
    ensures r.count == count + Tally(r.outcomes)
    ensures count < cfg.limit ==> r.count <= cfg.limit
    ensures count >= cfg.limit ==> r == SearchRun(count, [], 0, LimitReached)
    ensures r.pagesSeen <= |pages|
    ensures |r.outcomes| <= TotalButtons(pages)
    decreases |pages|
  {
    if count >= cfg.limit then SearchRun(count, [], 0, LimitReached)
    else
      match VisitPage(pages[0], cfg, count)
      case Halted(reason) => SearchRun(count, [], 1, reason)
      case Processed(after, outcomes) =>
        if after >= cfg.limit then SearchRun(after, outcomes, 1, LimitReached)
        else if |pages| == 1 then SearchRun(after, outcomes, 1, NoNextPage)
        else
          var rest := SearchLoop(pages[1..], cfg, after);
          TallyAppend(outcomes, rest.outcomes);
          SearchRun(rest.count, outcomes + rest.outcomes, rest.pagesSeen + 1, rest.halt)
  }

  /** Why a run stopped: the limit was met, the last page had no Next
      control, the banner showed on the last page seen after a quiet scroll,
      or the scroll or the control query raised there. */
  lemma {:induction false} HaltReasons(pages: seq<Page>, cfg: SearchConfig, count: nat)
    requires |pages| > 0
    ensures var r := SearchLoop(pages, cfg, count);
      && (r.halt == LimitReached ==> r.count >= cfg.limit)
      && (r.halt == NoNextPage ==> r.count < cfg.limit && r.pagesSeen == |pages|)
      && (r.halt == RateLimited ==>
            0 < r.pagesSeen && pages[r.pagesSeen - 1].banner && !pages[r.pagesSeen - 1].scrollRaises)
      && (r.halt == PageFault ==>
            0 < r.pagesSeen && (pages[r.pagesSeen - 1].scrollRaises || pages[r.pagesSeen - 1].queryRaises))
    decreases |pages|
  {
    var r := SearchLoop(pages, cfg, count);
    if count < cfg.limit {
      var v := VisitPage(pages[0], cfg, count);
      if v.Halted? {
        assert r == SearchRun(count, [], 1, v.reason);
      } else if v.after >= cfg.limit {
        assert r == SearchRun(v.after, v.outcomes, 1, LimitReached);
      } else if |pages| == 1 {
        assert r == SearchRun(v.after, v.outcomes, 1, NoNextPage);
      } else {
        HaltReasons(pages[1..], cfg, v.after);
        var rest := SearchLoop(pages[1..], cfg, v.after);
        assert r == SearchRun(rest.count, v.outcomes + rest.outcomes, rest.pagesSeen + 1, rest.halt);
        if rest.pagesSeen > 0 {
          assert pages[1..][rest.pagesSeen - 1] == pages[rest.pagesSeen];
        }
      }
    }
  }

  /** The pages the loop moved past were all calm, and so is the page it
      stopped on when it stopped at the limit or for want of a Next control;
      below the limit at least one page is seen. */
  lemma SeenPagesCalm(pages: seq<Page>, cfg: SearchConfig, count: nat)
    requires |pages| > 0
    ensures var r := SearchLoop(pages, cfg, count);
      && (count < cfg.limit ==> 0 < r.pagesSeen)
      && (forall p :: 0 <= p < r.pagesSeen - 1 ==> Calm(pages[p]))
      && ((r.halt == NoNextPage || r.halt == LimitReached) && 0 < r.pagesSeen ==> Calm(pages[r.pagesSeen - 1]))
  {
    PassedPagesCalm(pages, cfg, count);
    LastSeenCalm(pages, cfg, count);
  }

  lemma {:induction false} PassedPagesCalm(pages: seq<Page>, cfg: SearchConfig, count: nat)
    requires |pages| > 0
    ensures var r := SearchLoop(pages, cfg, count);
      && (count < cfg.limit ==> 0 < r.pagesSeen)
      && (forall p :: 0 <= p < r.pagesSeen - 1 ==> Calm(pages[p]))
    decreases |pages|
  {
    var r := SearchLoop(pages, cfg, count);
    if count < cfg.limit {
      var v := VisitPage(pages[0], cfg, count);
      if v.Processed? && v.after < cfg.limit && |pages| > 1 {
        PassedPagesCalm(pages[1..], cfg, v.after);
        var rest := SearchLoop(pages[1..], cfg, v.after);
        assert r.pagesSeen == rest.pagesSeen + 1;
        assert forall p :: 0 <= p < rest.pagesSeen ==> pages[1..][p] == pages[p + 1];
      } else {
        assert r.pagesSeen == 1;
      }
    }
  }

  lemma {:induction false} LastSeenCalm(pages: seq<Page>, cfg: SearchConfig, count: nat)
    requires |pages| > 0
    ensures var r := SearchLoop(pages, cfg, count);
      (r.halt == NoNextPage || r.halt == LimitReached) && 0 < r.pagesSeen ==> Calm(pages[r.pagesSeen - 1])
    decreases |pages|
  {
    var r := SearchLoop(pages, cfg, count);
    if count < cfg.limit {
      var v := VisitPage(pages[0], cfg, count);
      if v.Halted? {
        assert r == SearchRun(count, [], 1, v.reason);
      } else if v.after < cfg.limit && |pages| > 1 {
        LastSeenCalm(pages[1..], cfg, v.after);
        var rest := SearchLoop(pages[1..], cfg, v.after);
        assert r == SearchRun(rest.count, v.outcomes + rest.outcomes, rest.pagesSeen + 1, rest.halt);
        if 0 < rest.pagesSeen {
          assert pages[r.pagesSeen - 1] == pages[1..][rest.pagesSeen - 1];
        }
      } else {
        assert r.pagesSeen == 1;
      }
    }
  }


  /** The controls of every page processed one page after another, each page
      entered with the counter the previous one left; a page that is not calm
      contributes nothing. This fold has no halting rule of its own. */
  function Feed(pages: seq<Page>, cfg: SearchConfig, count: nat): (r: (nat, seq<ButtonOutcome>))
    ensures r.0 == count + Tally(r.1)
    decreases |pages|
  {
    if |pages| == 0 then (count, [])
    else
      var first := if Calm(pages[0]) then ProcessButtons(pages[0].buttons, cfg, count) else (count, []);
      var rest := Feed(pages[1..], cfg, first.0);
      TallyAppend(first.1, rest.1);
      (rest.0, first.1 + rest.1)
  }

  /** The loop's outcomes and counter are exactly those of processing the
      pages it saw, one after another: the halting rules only decide how many
      pages are seen. */
  lemma {:induction false} SearchLoopIsFeed(pages: seq<Page>, cfg: SearchConfig, count: nat)
    requires |pages| > 0
    ensures var r := SearchLoop(pages, cfg, count);
      r.pagesSeen <= |pages| && (r.count, r.outcomes) == Feed(pages[..r.pagesSeen], cfg, count)
    decreases |pages|
  {
    if count >= cfg.limit {
      assert pages[..0] == [];
    } else if !Calm(pages[0]) {
      assert pages[..1] == [pages[0]];
      assert [pages[0]][1..] == [];
    } else {
      var after := ProcessButtons(pages[0].buttons, cfg, count).0;
      if after < cfg.limit && |pages| > 1 {
        SearchLoopIsFeed(pages[1..], cfg, after);
        var rest := SearchLoop(pages[1..], cfg, after);
        assert pages[..rest.pagesSeen + 1][0] == pages[0];
        assert pages[..rest.pagesSeen + 1][1..] == pages[1..][..rest.pagesSeen];
        assert [] + rest.outcomes == rest.outcomes;
      } else {
        var outs := ProcessButtons(pages[0].buttons, cfg, count).1;
        assert pages[..1] == [pages[0]];
        assert [pages[0]][1..] == [];
        assert Feed([], cfg, after) == (after, []);
        assert outs + [] == outs;
      }
    }
  }

  /** `send_connection_request`: the loop entered with a zero counter. The
      counter never exceeds a non-negative limit, and a limit of zero or less
      processes nothing. */
  function SendConnectionRequest(pages: seq<Page>, cfg: SearchConfig): (r: SearchRun)
    requires |pages| > 0
    ensures cfg.limit >= 0 ==> r.count <= cfg.limit
    ensures cfg.limit <= 0 ==> r == SearchRun(0, [], 0, LimitReached)
    ensures r.count == Tally(r.outcomes) <= |r.outcomes|
  {
    SearchLoop(pages, cfg, 0)
  }

  /* ---------------------------------------------------------------------
     Properties of the loop
     --------------------------------------------------------------------- */

  function Min(a: int, b: int): int
  {
    if a < b then a else b
  }

  /** A page where nothing interrupts the loop: scrolling and the query work
      and the banner is absent. */
  predicate Calm(p: Page)
  {
    !p.scrollRaises && !p.banner && !p.queryRaises
  }

  /** Every control in `bs` would be counted. */
  predicate AllCounted(bs: seq<ButtonObs>, cfg: SearchConfig)
    decreases |bs|
  {
    |bs| == 0 || (HandleButton(bs[0], cfg).Counted? && AllCounted(bs[1..], cfg))
  }

  /** Every page is calm and every control on it would be counted. */
  predicate AllCalmCounted(pages: seq<Page>, cfg: SearchConfig)
    decreases |pages|
  {
    |pages| == 0 || (Calm(pages[0]) && AllCounted(pages[0].buttons, cfg) && AllCalmCounted(pages[1..], cfg))
  }

  lemma {:induction false} AllCountedEach(bs: seq<ButtonObs>, cfg: SearchConfig)
    requires forall i :: 0 <= i < |bs| ==> HandleButton(bs[i], cfg).Counted?
    ensures AllCounted(bs, cfg)
    decreases |bs|
  {
    if |bs| > 0 {
      assert HandleButton(bs[0], cfg).Counted?;
      forall i | 0 <= i < |bs[1..]| ensures HandleButton(bs[1..][i], cfg).Counted? {
        assert bs[1..][i] == bs[i + 1];
      }
      AllCountedEach(bs[1..], cfg);
    }
  }

  /** In message mode every control is counted, so every calm run of pages
      satisfies `AllCalmCounted`. */
  lemma {:induction false} MessageModeAllCalmCounted(pages: seq<Page>, cfg: SearchConfig)
    requires MessageMode(cfg)
    requires forall p :: 0 <= p < |pages| ==> Calm(pages[p])
    ensures AllCalmCounted(pages, cfg)
    decreases |pages|
  {
    if |pages| > 0 {
      var bs := pages[0].buttons;
      forall i | 0 <= i < |bs| ensures HandleButton(bs[i], cfg).Counted? {
      }
      AllCountedEach(bs, cfg);
      assert Calm(pages[0]);
      forall p | 0 <= p < |pages[1..]| ensures Calm(pages[1..][p]) {
        assert pages[1..][p] == pages[p + 1];
      }
      MessageModeAllCalmCounted(pages[1..], cfg);
    }
  }

  /** The canonical banner page: nothing on it is ever looked at. */
  const BannerPage := Page(false, true, false, [])

  lemma {:induction false} TotalButtonsAppend(a: seq<Page>, b: seq<Page>)
    ensures TotalButtons(a + b) == TotalButtons(a) + TotalButtons(b)
    decreases |a|
  {
    if |a| == 0 {
      assert a + b == b;
    } else {
      assert (a + b)[0] == a[0];
      assert (a + b)[1..] == a[1..] + b;
      TotalButtonsAppend(a[1..], b);
    }
  }

  /** Once the loop reaches a page showing the banner it returns: neither the
      controls on that page nor any later page make a difference. */
  lemma {:induction false} BannerCutsFeed(pages: seq<Page>, j: nat, cfg: SearchConfig, count: nat)
    requires j < |pages| && pages[j].banner && !pages[j].scrollRaises
    ensures SearchLoop(pages, cfg, count) == SearchLoop(pages[..j] + [BannerPage], cfg, count)
    decreases j
  {
    var cut := pages[..j] + [BannerPage];
    if j > 0 {
      assert cut[0] == pages[0];
      assert cut[1..] == pages[1..][..j - 1] + [BannerPage];
      BannerCutsFeed(pages[1..], j - 1, cfg, count);
      if count < cfg.limit && Calm(pages[0]) && |pages[0].buttons| > 0 {
        var (after, _) := ProcessButtons(pages[0].buttons, cfg, count);
        BannerCutsFeed(pages[1..], j - 1, cfg, after);
      }
    }
  }

  /** No control on or after a banner page is ever processed. */
  lemma BannerStopsProcessing(pages: seq<Page>, j: nat, cfg: SearchConfig, count: nat)
    requires j < |pages| && pages[j].banner && !pages[j].scrollRaises
    ensures |SearchLoop(pages, cfg, count).outcomes| <= TotalButtons(pages[..j])
  {
    BannerCutsFeed(pages, j, cfg, count);
    TotalButtonsAppend(pages[..j], [BannerPage]);
    assert TotalButtons([BannerPage]) == 0;
  }

  /** When every control on a page is counted, the page stops exactly at the
      limit or at its last control. */
  lemma {:induction false} ProcessAllCounted(bs: seq<ButtonObs>, cfg: SearchConfig, count: nat)
    requires count <= cfg.limit
    requires AllCounted(bs, cfg)
    ensures ProcessButtons(bs, cfg, count).0 == Min(cfg.limit, count + |bs|)
    ensures |ProcessButtons(bs, cfg, count).1| == Min(cfg.limit, count + |bs|) - count
    decreases |bs|
  {
    if |bs| > 0 && count < cfg.limit {
      ProcessAllCounted(bs[1..], cfg, count + 1);
    }
  }

  /** On a calm page below the limit the loop processes the page's controls
      and continues on the next page only while still below the limit: a
      page that meets the limit is the last one seen. */
  lemma CalmStep(pages: seq<Page>, cfg: SearchConfig, count: nat)
    requires |pages| > 0 && count < cfg.limit && Calm(pages[0])
    ensures var after := ProcessButtons(pages[0].buttons, cfg, count).0;
      SearchLoop(pages, cfg, count).count
      == if after < cfg.limit && |pages| > 1 then SearchLoop(pages[1..], cfg, after).count else after
    ensures var after := ProcessButtons(pages[0].buttons, cfg, count).0;
      var r := SearchLoop(pages, cfg, count);
      && (after >= cfg.limit ==> r.pagesSeen == 1 && r.halt == LimitReached)
      && (after < cfg.limit && |pages| == 1 ==> r.pagesSeen == 1 && r.halt == NoNextPage)
      && (after < cfg.limit && |pages| > 1 ==>
            r.pagesSeen == SearchLoop(pages[1..], cfg, after).pagesSeen + 1
            && r.halt == SearchLoop(pages[1..], cfg, after).halt)
  {
  }

  /** The loop moves to another page only below the limit: every page it
      saw was entered with the counter, as left by the pages before it,
      still below the limit. */
  lemma {:induction false} PagesEnteredBelowLimit(pages: seq<Page>, cfg: SearchConfig, count: nat)
    requires |pages| > 0
    ensures var r := SearchLoop(pages, cfg, count);
      forall p :: 0 <= p < r.pagesSeen ==> Feed(pages[..p], cfg, count).0 < cfg.limit
    decreases |pages|
  {
    var r := SearchLoop(pages, cfg, count);
    if count < cfg.limit {
      assert pages[..0] == [];
      var v := VisitPage(pages[0], cfg, count);
      if v.Processed? && v.after < cfg.limit && |pages| > 1 {
        PagesEnteredBelowLimit(pages[1..], cfg, v.after);
        var rest := SearchLoop(pages[1..], cfg, v.after);
        assert r.pagesSeen == rest.pagesSeen + 1;
        forall p | 1 <= p < r.pagesSeen
          ensures Feed(pages[..p], cfg, count).0 < cfg.limit
        {
          assert pages[..p][0] == pages[0];
          assert pages[..p][1..] == pages[1..][..p - 1];
          assert Feed(pages[..p], cfg, count).0 == Feed(pages[1..][..p - 1], cfg, v.after).0;
        }
      } else {
        assert r.pagesSeen == 1;
      }
    }
  }

  /** When no page is interrupted and every control is counted, the run counts
      every control it is offered, up to the limit. */
  lemma {:induction false} LoopAllCounted(pages: seq<Page>, cfg: SearchConfig, count: nat)
    requires |pages| > 0 && count <= cfg.limit
    requires AllCalmCounted(pages, cfg)
    ensures SearchLoop(pages, cfg, count).count == Min(cfg.limit, count + TotalButtons(pages))
    decreases |pages|
  {
    if count < cfg.limit {
      var page := pages[0];
      ProcessAllCounted(page.buttons, cfg, count);
      var after := ProcessButtons(page.buttons, cfg, count).0;
      CalmStep(pages, cfg, count);
      var total := TotalButtons(pages);
      assert total == |page.buttons| + TotalButtons(pages[1..]);
      if after < cfg.limit && |pages| > 1 {
        LoopAllCounted(pages[1..], cfg, after);
        assert count + total == after + TotalButtons(pages[1..]);
      } else if after < cfg.limit {
        assert total == |page.buttons|;
      }
    }
  }


  /** Message mode clicks nothing and counts every control it finds, until
      the limit or the last page. */
  lemma MessageModeCountsEveryButton(pages: seq<Page>, cfg: SearchConfig)
    requires |pages| > 0 && cfg.limit >= 0 && MessageMode(cfg)
    requires forall p :: 0 <= p < |pages| ==> Calm(pages[p])
    ensures SendConnectionRequest(pages, cfg).count == Min(cfg.limit, TotalButtons(pages))
  {
    MessageModeAllCalmCounted(pages, cfg);
    RunAllCounted(pages, cfg);
  }

  /** A whole run over calm pages whose every control is counted counts
      every control, up to the limit. */
  lemma RunAllCounted(pages: seq<Page>, cfg: SearchConfig)
    requires |pages| > 0 && cfg.limit >= 0 && AllCalmCounted(pages, cfg)
    ensures SendConnectionRequest(pages, cfg).count == Min(cfg.limit, TotalButtons(pages))
  {
    LoopAllCounted(pages, cfg, 0);
    assert 0 + TotalButtons(pages) == TotalButtons(pages);
  }

  /** A page with no controls hands over to the next page with the counter
      unchanged, or ends the run when there is no next page. */
  lemma EmptyPageMovesOn(pages: seq<Page>, cfg: SearchConfig, count: nat)
    requires |pages| > 0 && count < cfg.limit && Calm(pages[0]) && pages[0].buttons == []
    ensures |pages| == 1 ==> SearchLoop(pages, cfg, count) == SearchRun(count, [], 1, NoNextPage)
    ensures |pages| > 1 ==>
      var rest := SearchLoop(pages[1..], cfg, count);
      SearchLoop(pages, cfg, count) == SearchRun(rest.count, rest.outcomes, rest.pagesSeen + 1, rest.halt)
  {
  }

  /** A limit of 3 on a single page of five controls that all go through sends
      three and leaves two unprocessed. */
  lemma LimitThreeOfFive(page: Page, cfg: SearchConfig)
    requires Calm(page) && |page.buttons| == 5 && cfg.limit == 3
    requires forall i :: 0 <= i < 5 ==> HandleButton(page.buttons[i], cfg).Counted?
    ensures SendConnectionRequest([page], cfg).count == 3
    ensures |SendConnectionRequest([page], cfg).outcomes| == 3
    ensures SendConnectionRequest([page], cfg).halt == LimitReached
  {
    AllCountedEach(page.buttons, cfg);
    ProcessAllCounted(page.buttons, cfg, 0);
  }

  /** The banner appearing on the second page after one success on the first
      ends the run with one invitation sent. */
  lemma BannerAfterOneSuccess(first: Page, second: Page, cfg: SearchConfig)
    requires Calm(first) && |first.buttons| == 1 && cfg.limit > 1
    requires HandleButton(first.buttons[0], cfg).Counted?
    requires second.banner && !second.scrollRaises
    ensures SendConnectionRequest([first, second], cfg).count == 1
    ensures SendConnectionRequest([first, second], cfg).halt == RateLimited
    ensures SendConnectionRequest([first, second], cfg).pagesSeen == 2
  {
    assert AllCounted(first.buttons[1..], cfg);
    ProcessAllCounted(first.buttons, cfg, 0);
    assert [first, second][1..] == [second];
    assert SearchLoop([second], cfg, 1) == SearchRun(1, [], 1, RateLimited);
    var (after, outcomes) := ProcessButtons(first.buttons, cfg, 0);
    assert after == 1 && |outcomes| == 1;
  }
}
