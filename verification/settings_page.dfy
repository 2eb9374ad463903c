/** The stateful part of AbstractSettingsPage: the page object whose fields the
    constructor merges from its options and whose feedback log grows in place, and the
    host's submenu registry that `register_submenu_links` appends to. */
module SettingsPage {
  import opened SettingsPageLogic

  /** The constructor's `$args`: a recognised key that is missing or null is None. A PHP
      array cannot repeat a key, so a `tabs` option holds distinct keys. */
  datatype Args = Args(
    capability: Option<string>,
    pageName: Option<string>,
    pageSlug: Option<string>,
    tabs: Option<seq<Tab>>,
    showTabsInMenu: Option<bool>)

  /** The host's global `$submenu`: rows of links keyed by parent page slug. */
  class AdminMenu {
    var submenu: map<string, seq<SubmenuEntry>>

    constructor (submenu: map<string, seq<SubmenuEntry>>)
      ensures this.submenu == submenu
    {
      this.submenu := submenu;
    }
  }

  class AbstractSettingsPage {
    var capability: string
    var pageName: string
    var pageSlug: string
    var defaultTab: string
    var tabs: seq<Tab>
    var feedback: seq<Feedback>
    var showTabsInMenu: bool
    /** `static::class`: the name of the concrete page class. */
    const className: string

    /** Every recognised option that is set replaces its field's default; the others,
        `default_tab` and the feedback log keep theirs. */
    constructor (className: string, args: Args)
      requires args.tabs.Some? ==> UniqueKeys(args.tabs.value)
      ensures this.className == className
      ensures args.capability.Some? ==> capability == args.capability.value
      ensures args.capability.None? ==> capability == DefaultCapability
      ensures args.pageName.Some? ==> pageName == args.pageName.value
      ensures args.pageName.None? ==> pageName == DefaultPageName
      ensures args.pageSlug.Some? ==> pageSlug == args.pageSlug.value
      ensures args.pageSlug.None? ==> pageSlug == DefaultPageSlug
      ensures args.tabs.Some? ==> tabs == args.tabs.value
      ensures args.tabs.None? ==> tabs == []
      ensures args.showTabsInMenu.Some? ==> showTabsInMenu == args.showTabsInMenu.value
      ensures args.showTabsInMenu.None? ==> showTabsInMenu
      ensures defaultTab == "" && feedback == []
      ensures UniqueKeys(tabs)
    {
      this.className := className;
      capability := DefaultCapability;
      pageName := DefaultPageName;
      pageSlug := DefaultPageSlug;
      defaultTab := "";
      tabs := [];
      feedback := [];
      showTabsInMenu := true;
      if args.capability.Some? {
        capability := args.capability.value;
      }
      if args.pageName.Some? {
        pageName := args.pageName.value;
      }
      if args.pageSlug.Some? {
        pageSlug := args.pageSlug.value;
      }
      if args.tabs.Some? {
        tabs := args.tabs.value;
      }
      if args.showTabsInMenu.Some? {
        showTabsInMenu := args.showTabsInMenu.value;
      }
    }

    /** Appends one message at the end of the log; earlier messages stay as they were. */
    method AddFeedbackMessage(message: string, kind: string := DefaultFeedbackKind)
      modifies this`feedback
      ensures feedback == old(feedback) + [Feedback(message, kind)]
      ensures FeedbackNotices(feedback) == FeedbackNotices(old(feedback)) + [Notice(NoticeClass(kind), message)]
    {
      FeedbackNoticesAppend(feedback, Feedback(message, kind));
      feedback := feedback + [Feedback(message, kind)];
    }

    /** When tabs are shown in the menu, appends one row per tab, in tab order, to the
        rows under this page's slug; no other slug's rows change. With no tabs, or with
        the option off, the registry is left as it was. */
    method RegisterSubmenuLinks(menu: AdminMenu)
      modifies menu
      ensures showTabsInMenu && tabs != [] ==>
        menu.submenu == old(menu.submenu)[pageSlug := Registered(old(menu.submenu), pageSlug) + TabLinks(tabs, capability, pageSlug)]
      ensures !showTabsInMenu || tabs == [] ==> menu.submenu == old(menu.submenu)
      ensures forall s :: s != pageSlug ==>
        (s in menu.submenu <==> s in old(menu.submenu)) && Registered(menu.submenu, s) == Registered(old(menu.submenu), s)
    {
      if showTabsInMenu {
        ghost var start := menu.submenu;
        ghost var before := Registered(start, pageSlug);
        var i := 0;
        while i < |tabs|
          invariant 0 <= i <= |tabs|
          invariant i == 0 ==> menu.submenu == start
          invariant i > 0 ==> menu.submenu == start[pageSlug := before + TabLinks(tabs[..i], capability, pageSlug)]
        {
          var entry := SubmenuEntry(tabs[i].caption, capability, BaseUrl(pageSlug) + TabQuery + tabs[i].key);
          ghost var done := TabLinks(tabs[..i], capability, pageSlug);
          assert i == 0 ==> done == [];
          assert Registered(menu.submenu, pageSlug) == before + done;
          assert tabs[..i + 1] == tabs[..i] + [tabs[i]];
          TabLinksAppend(tabs[..i], tabs[i], capability, pageSlug);
          assert entry == SubmenuEntry(tabs[i].caption, capability, TabUrl(pageSlug, tabs[i].key));
          assert before + done + [entry] == before + TabLinks(tabs[..i + 1], capability, pageSlug);
          menu.submenu := menu.submenu[pageSlug := Registered(menu.submenu, pageSlug) + [entry]];
          i := i + 1;
        }
        assert tabs[..|tabs|] == tabs;
      }
    }

    /** The anchors of the tab navigation bar for this request: one per tab, in tab order,
        the active tab's marked. */
    method RenderTabControls(req: Request) returns (links: seq<NavLink>)
      ensures links == TabNav(pageSlug, tabs, ResolveActiveTab(req.tab, defaultTab, tabs))
    {
      var active := ResolveActiveTab(req.tab, defaultTab, tabs);
      links := [];
      var i := 0;
      while i < |tabs|
        invariant 0 <= i <= |tabs|
        invariant links == TabNav(pageSlug, tabs[..i], active)
      {
        var key := tabs[i].key;
        var tabUrl := BaseUrl(pageSlug) + TabQuery + key;
        var tabClass := if Some(key) == active then ActiveTabClass else InactiveTabClass;
        assert tabs[..i + 1] == tabs[..i] + [tabs[i]];
        TabNavAppend(pageSlug, tabs[..i], tabs[i], active);
        links := links + [NavLink(tabUrl, tabClass, tabs[i].caption)];
        i := i + 1;
      }
      assert tabs[..|tabs|] == tabs;
    }

    /** The feedback blocks: one per message, in insertion order, classed by type. */
    method RenderFeedback() returns (notices: seq<Notice>)
      ensures notices == FeedbackNotices(feedback)
    {
      notices := [];
      var i := 0;
      while i < |feedback|
        invariant 0 <= i <= |feedback|
        invariant notices == FeedbackNotices(feedback[..i])
      {
        var cssClass := "";
        if "success" == feedback[i].kind {
          cssClass := SuccessNoticeClass;
        }
        if "error" == feedback[i].kind {
          cssClass := ErrorNoticeClass;
        }
        assert feedback[..i + 1] == feedback[..i] + [feedback[i]];
        FeedbackNoticesAppend(feedback[..i], feedback[i]);
        notices := notices + [Notice(cssClass, feedback[i].message)];
        i := i + 1;
      }
      assert feedback[..|feedback|] == feedback;
    }

    /** The page for this request. The tab's form (with the feedback above it and a nonce
        field for this page and tab) appears exactly when a handler for the active tab
        exists; otherwise a notice names the missing handler and the class. */
    method RenderPage(req: Request, implemented: set<string>) returns (view: PageView)
      ensures view.pageName == pageName
      ensures view.nav == TabNav(pageSlug, tabs, ResolveActiveTab(req.tab, defaultTab, tabs))
      ensures view.tabLabel.Some? <==> ResolveActiveTab(req.tab, defaultTab, tabs).Some? && HasKey(tabs, ResolveActiveTab(req.tab, defaultTab, tabs).value)
      ensures view.tabLabel.Some? ==>
        exists i :: 0 <= i < |tabs| && tabs[i] == Tab(ResolveActiveTab(req.tab, defaultTab, tabs).value, view.tabLabel.value)
      ensures view.body.TabForm? <==> ResolveActiveTab(req.tab, defaultTab, tabs).Some? && ResolveActiveTab(req.tab, defaultTab, tabs).value in implemented
      ensures view.body.TabForm? ==>
        && view.body.handler == ResolveActiveTab(req.tab, defaultTab, tabs).value
        && view.body.notices == FeedbackNotices(feedback)
        && view.body.nonceAction == NonceAction(pageSlug, ResolveActiveTab(req.tab, defaultTab, tabs))
      ensures view.body.MissingHandler? ==>
        view.body.message == MissingHandlerMessage(TabText(ResolveActiveTab(req.tab, defaultTab, tabs)), className)
    {
      var active := ResolveActiveTab(req.tab, defaultTab, tabs);
      var caption := if active.Some? then CaptionIn(tabs, active.value) else None;
      var nav := RenderTabControls(req);
      var body;
      if active.Some? && active.value in implemented {
        var notices := RenderFeedback();
        body := TabForm(notices, active.value, NonceAction(pageSlug, active));
      } else {
        body := MissingHandler(MissingHandlerMessage(TabText(active), className));
      }
      view := PageView(pageName, caption, nav, body);
    }

    /** The default `save()`: whatever the active tab, one error message asking the
        concrete class to override it. */
    method Save(req: Request)
      modifies this`feedback
      ensures feedback == old(feedback) + [Feedback(OverrideSaveMessage(className), ErrorFeedbackKind)]
    {
      var activeTab := ResolveActiveTab(req.tab, defaultTab, tabs);
      AddFeedbackMessage(OverrideSaveMessage(className), ErrorFeedbackKind);
    }

    /** `_save()`: runs `save()` once when the POST body is non-empty and the nonce for
        the active tab verifies; otherwise nothing changes and no feedback is added. */
    method ProcessSubmission(req: Request, verify: NonceCheck) returns (saved: bool)
      modifies this`feedback
      ensures saved == SubmissionAccepted(req, pageSlug, defaultTab, tabs, verify)
      ensures saved ==> feedback == old(feedback) + [Feedback(OverrideSaveMessage(className), ErrorFeedbackKind)]
      ensures !saved ==> feedback == old(feedback)
    {
      if |req.post| == 0 || !VerifyNonce(req.post, NonceAction(pageSlug, ResolveActiveTab(req.tab, defaultTab, tabs)), verify) {
        return false;
      }
      Save(req);
      saved := true;
    }
  }
}
