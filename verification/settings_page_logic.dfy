/** The deterministic logic underneath AbstractSettingsPage: values, the strings the
    page builds (base URL, tab links, nonce action), active-tab resolution, and the
    class-selection decisions made while rendering feedback and tab navigation.
    Host primitives (the request, nonce verification, method_exists) are inputs. */
module SettingsPageLogic {

  datatype Option<T> = None | Some(value: T)

  /** One entry `key => label` of the ordered `tabs` array. */
  datatype Tab = Tab(key: string, caption: string)

  /** One element `['message' => ..., 'type' => ...]` of the `feedback` array. */
  datatype Feedback = Feedback(message: string, kind: string)

  /** One row `[label, capability, url]` appended to the host's submenu registry. */
  datatype SubmenuEntry = SubmenuEntry(caption: string, capability: string, url: string)

  /** One anchor of the tab navigation bar: its href, its class attribute, its text. */
  datatype NavLink = NavLink(url: string, cssClass: string, caption: string)

  /** One feedback block: the class attribute of its div and the message it shows. */
  datatype Notice = Notice(cssClass: string, message: string)

  /** The request as the page sees it: the optional `tab` query parameter and the POST body. */
  datatype Request = Request(tab: Option<string>, post: map<string, string>)

  /** The host's nonce check, `wp_verify_nonce(token, action)`, left uninterpreted. */
  type NonceCheck = (string, string) -> bool

  /** What the body of the page holds below the navigation: either the feedback, the
      tab's own form (dispatched to the handler named by the tab key) and a nonce field
      for `nonceAction`, or the notice that no handler exists. */
  datatype PageBody =
    | TabForm(notices: seq<Notice>, handler: string, nonceAction: string)
    | MissingHandler(message: string)

  /** The page as rendered: heading (page name and the active tab's label, when the
      active tab is a key), tab navigation, and body. */
  datatype PageView = PageView(pageName: string, tabLabel: Option<string>, nav: seq<NavLink>, body: PageBody)

  const DefaultCapability := "manage_options"
  const DefaultPageName := "Settings Page"
  const DefaultPageSlug := "settings_page"
  const DefaultFeedbackKind := "success"
  const ErrorFeedbackKind := "error"

  const BaseUrlPrefix := "admin.php?page="
  const TabQuery := "&tab="
  const NoncePrefix := "save-"
  const NonceField := "_wpnonce"
  const OverridePrefix := "Override the save() function in "
  const MissingPrefix := "Method "
  const MissingInfix := "() is not defined in "

  const ActiveTabClass := "nav-tab nav-tab-active"
  const InactiveTabClass := "nav-tab"
  const SuccessNoticeClass := "updated notice"
  const ErrorNoticeClass := "error notice"

  /** PHP's `empty()` on a string: true for "" and for "0". */
  predicate PhpEmpty(s: string) {
    s == "" || s == "0"
  }

  /** PHP's string conversion of a possibly-null value: null becomes "". */
  function TabText(active: Option<string>): string {
    if active.Some? then active.value else ""
  }

  predicate HasKey(tabs: seq<Tab>, k: string) {
    exists i :: 0 <= i < |tabs| && tabs[i].key == k
  }

  /** Keys of a PHP array are distinct; a `seq<Tab>` stands for one only when this holds. */
  predicate UniqueKeys(tabs: seq<Tab>) {
    forall i, j :: 0 <= i < j < |tabs| ==> tabs[i].key != tabs[j].key
  }

  // ---------------------------------------------------------------------------
  // Strings the page builds
  // ---------------------------------------------------------------------------

  /** `get_base_url()`: the page's URL without a tab parameter. The slug can be read back. */
  function BaseUrl(slug: string): (r: string)
    ensures |r| == |BaseUrlPrefix| + |slug|
    ensures r[..|BaseUrlPrefix|] == BaseUrlPrefix
    ensures r[|BaseUrlPrefix|..] == slug
  {
    BaseUrlPrefix + slug
  }

  /** The link to tab `key`: the base URL followed by `&tab=<key>`. Both parts can be read back. */
  function TabUrl(slug: string, key: string): (r: string)
    ensures |r| == |BaseUrl(slug)| + |TabQuery| + |key|
    ensures r[..|BaseUrl(slug)|] == BaseUrl(slug)
    ensures r[|BaseUrl(slug)|..|BaseUrl(slug)| + |TabQuery|] == TabQuery
    ensures r[|BaseUrl(slug)| + |TabQuery|..] == key
  {
    BaseUrl(slug) + TabQuery + key
  }

  /** `get_nonce_action()` for a given active tab: "save-<slug>-<tab>"; a null tab prints as "". */
  function NonceAction(slug: string, active: Option<string>): (r: string)
    ensures |r| == |NoncePrefix| + |slug| + 1 + |TabText(active)|
    ensures r[..|NoncePrefix|] == NoncePrefix
    ensures r[|NoncePrefix|..|NoncePrefix| + |slug|] == slug
    ensures r[|NoncePrefix| + |slug|] == '-'
    ensures r[|NoncePrefix| + |slug| + 1..] == TabText(active)
  {
    NoncePrefix + slug + "-" + TabText(active)
  }

  /** For a fixed page, distinct tabs get distinct tab links. */
  lemma TabUrlInjective(slug: string, k1: string, k2: string)
    requires TabUrl(slug, k1) == TabUrl(slug, k2)
    ensures k1 == k2
  {
  }

  /** For a fixed slug, two different active tabs never share a nonce action, so a token
      minted for one tab's form is not the token for another's. */
  lemma NonceActionInjective(slug: string, a: string, b: string)
    requires NonceAction(slug, Some(a)) == NonceAction(slug, Some(b))
    ensures a == b
  {
  }

  /** The action is unique per tab only within one page: across pages a dash in the slug
      or in the tab makes two different (slug, tab) pairs print the same action. */
  lemma NonceActionCrossPageCollision()
    ensures NonceAction("a-b", Some("c")) == NonceAction("a", Some("b-c"))
    ensures ("a-b", "c") != ("a", "b-c")
  {
  }

  // ---------------------------------------------------------------------------
  // Active tab
  // ---------------------------------------------------------------------------

  /** `get_active_tab()`: the `tab` parameter if present, else a non-empty `default_tab`,
      else the first tab key; with no tabs at all PHP's `$keys[0]` is null (None). */
  function ResolveActiveTab(tabParam: Option<string>, defaultTab: string, tabs: seq<Tab>): (r: Option<string>)
    ensures tabParam.Some? ==> r == tabParam
    ensures tabParam.None? && !PhpEmpty(defaultTab) ==> r == Some(defaultTab)
    ensures tabParam.None? && PhpEmpty(defaultTab) && tabs != [] ==> r == Some(tabs[0].key)
    ensures r.None? <==> tabParam.None? && PhpEmpty(defaultTab) && tabs == []
  {
    if tabParam.Some? then tabParam
    else if !PhpEmpty(defaultTab) then Some(defaultTab)
    else if |tabs| > 0 then Some(tabs[0].key)
    else None
  }

  /** Without a `tab` parameter the active tab is a key of `tabs` whenever `default_tab`
      is empty or itself a key, and `tabs` is non-empty. */
  lemma ActiveTabIsKey(defaultTab: string, tabs: seq<Tab>)
    requires tabs != []
    requires PhpEmpty(defaultTab) || HasKey(tabs, defaultTab)
    ensures ResolveActiveTab(None, defaultTab, tabs).Some?
    ensures HasKey(tabs, ResolveActiveTab(None, defaultTab, tabs).value)
  {
  }

  /** `$tabs[$key]`: the caption of the first tab whose key is `key`, if there is one. */
  function CaptionIn(tabs: seq<Tab>, key: string): (r: Option<string>)
    ensures r.Some? <==> HasKey(tabs, key)
    ensures r.Some? ==> exists i :: 0 <= i < |tabs| && tabs[i] == Tab(key, r.value)
  {
    if tabs == [] then None
    else if tabs[0].key == key then Some(tabs[0].caption)
    else
      var r := CaptionIn(tabs[1..], key);
      if r.Some? then
        var i :| 0 <= i < |tabs| - 1 && tabs[1..][i] == Tab(key, r.value);
        assert tabs[i + 1] == Tab(key, r.value);
        r
      else
        assert forall i :: 0 < i < |tabs| ==> tabs[i] == tabs[1..][i - 1];
        r
  }

  // ---------------------------------------------------------------------------
  // Submenu links
  // ---------------------------------------------------------------------------

  /** The rows `register_submenu_links` appends for `tabs`, one per tab, in tab order. */
  function TabLinks(tabs: seq<Tab>, capability: string, slug: string): (r: seq<SubmenuEntry>)
    ensures |r| == |tabs|
    ensures forall i :: 0 <= i < |tabs| ==>
      r[i] == SubmenuEntry(tabs[i].caption, capability, TabUrl(slug, tabs[i].key))
  {
    if tabs == [] then []
    else [SubmenuEntry(tabs[0].caption, capability, TabUrl(slug, tabs[0].key))] + TabLinks(tabs[1..], capability, slug)
  }

  /** Registering one more tab appends exactly its row. */
  lemma TabLinksAppend(tabs: seq<Tab>, t: Tab, capability: string, slug: string)
    ensures TabLinks(tabs + [t], capability, slug)
         == TabLinks(tabs, capability, slug) + [SubmenuEntry(t.caption, capability, TabUrl(slug, t.key))]
  {
  }

  /** The rows already registered under `slug` (PHP creates the list on first append). */
  function Registered(submenu: map<string, seq<SubmenuEntry>>, slug: string): seq<SubmenuEntry> {
    if slug in submenu then submenu[slug] else []
  }

  /** Each link of the registered rows points at a distinct tab when the keys are distinct. */
  lemma TabLinksDistinctUrls(tabs: seq<Tab>, capability: string, slug: string)
    requires UniqueKeys(tabs)
    ensures forall i, j :: 0 <= i < j < |tabs| ==>
      TabLinks(tabs, capability, slug)[i].url != TabLinks(tabs, capability, slug)[j].url
  {
  }

  // ---------------------------------------------------------------------------
  // Tab navigation
  // ---------------------------------------------------------------------------

  /** The anchors `render_tab_controls` prints, one per tab, in tab order. */
  function TabNav(slug: string, tabs: seq<Tab>, active: Option<string>): (r: seq<NavLink>)
    ensures |r| == |tabs|
    ensures forall i :: 0 <= i < |tabs| ==>
      && r[i].url == TabUrl(slug, tabs[i].key)
      && r[i].caption == tabs[i].caption
      && r[i].cssClass in {ActiveTabClass, InactiveTabClass}
      && (r[i].cssClass == ActiveTabClass <==> active == Some(tabs[i].key))
  {
    if tabs == [] then []
    else
      var cssClass := if active == Some(tabs[0].key) then ActiveTabClass else InactiveTabClass;
      [NavLink(TabUrl(slug, tabs[0].key), cssClass, tabs[0].caption)] + TabNav(slug, tabs[1..], active)
  }

  /** One more tab appends exactly its anchor. */
  lemma TabNavAppend(slug: string, tabs: seq<Tab>, t: Tab, active: Option<string>)
    ensures TabNav(slug, tabs + [t], active)
         == TabNav(slug, tabs, active)
          + [NavLink(TabUrl(slug, t.key), if active == Some(t.key) then ActiveTabClass else InactiveTabClass, t.caption)]
  {
  }

  /** When the active tab is one of the (distinct) keys, exactly one anchor is highlighted. */
  lemma ActiveTabHighlightedOnce(slug: string, tabs: seq<Tab>, k: string)
    requires UniqueKeys(tabs) && HasKey(tabs, k)
    ensures exists i :: 0 <= i < |tabs| && TabNav(slug, tabs, Some(k))[i].cssClass == ActiveTabClass
    ensures forall i, j ::
      (0 <= i < |tabs| && 0 <= j < |tabs|
       && TabNav(slug, tabs, Some(k))[i].cssClass == ActiveTabClass
       && TabNav(slug, tabs, Some(k))[j].cssClass == ActiveTabClass) ==> i == j
  {
    var i :| 0 <= i < |tabs| && tabs[i].key == k;
    assert TabNav(slug, tabs, Some(k))[i].cssClass == ActiveTabClass;
  }

  /** When the active tab is not a key (an unknown `tab` parameter), no anchor is highlighted. */
  lemma UnknownTabHighlightsNothing(slug: string, tabs: seq<Tab>, k: string)
    requires !HasKey(tabs, k)
    ensures forall i :: 0 <= i < |tabs| ==> TabNav(slug, tabs, Some(k))[i].cssClass == InactiveTabClass
  {
  }

  // ---------------------------------------------------------------------------
  // Feedback
  // ---------------------------------------------------------------------------

  /** The class of a feedback block, by message type. */
  function NoticeClass(kind: string): (r: string)
    ensures r == SuccessNoticeClass <==> kind == "success"
    ensures r == ErrorNoticeClass <==> kind == "error"
    ensures r == "" <==> kind != "success" && kind != "error"
  {
    if kind == "success" then SuccessNoticeClass
    else if kind == "error" then ErrorNoticeClass
    else ""
  }

  /** The blocks `render_feedback` prints: one per message, in insertion order. */
  function FeedbackNotices(feedback: seq<Feedback>): (r: seq<Notice>)
    ensures |r| == |feedback|
    ensures forall i :: 0 <= i < |feedback| ==>
      r[i] == Notice(NoticeClass(feedback[i].kind), feedback[i].message)
  {
    if feedback == [] then []
    else [Notice(NoticeClass(feedback[0].kind), feedback[0].message)] + FeedbackNotices(feedback[1..])
  }

  /** Appending one message appends exactly its block after the earlier ones. */
  lemma FeedbackNoticesAppend(feedback: seq<Feedback>, m: Feedback)
    ensures FeedbackNotices(feedback + [m]) == FeedbackNotices(feedback) + [Notice(NoticeClass(m.kind), m.message)]
  {
  }

  /** The message the default `save()` leaves for a class that did not override it. */
  function OverrideSaveMessage(className: string): (r: string)
    ensures |r| == |OverridePrefix| + |className| + 1
    ensures r[..|OverridePrefix|] == OverridePrefix
    ensures r[|OverridePrefix|..|r| - 1] == className
    ensures r[|r| - 1] == '.'
  {
    OverridePrefix + className + "."
  }

  /** The message shown when no handler exists for the active tab. */
  function MissingHandlerMessage(tab: string, className: string): (r: string)
    ensures |r| == |MissingPrefix| + |tab| + |MissingInfix| + |className| + 1
    ensures r[..|MissingPrefix|] == MissingPrefix
    ensures r[|MissingPrefix|..|MissingPrefix| + |tab|] == tab
    ensures r[|MissingPrefix| + |tab|..|MissingPrefix| + |tab| + |MissingInfix|] == MissingInfix
    ensures r[|r| - 1 - |className|..|r| - 1] == className
    ensures r[|r| - 1] == '.'
  {
    MissingPrefix + tab + MissingInfix + className + "."
  }

  // ---------------------------------------------------------------------------
  // Submission gate
  // ---------------------------------------------------------------------------

  /** `verify_nonce()`: a `_wpnonce` field is posted and the host accepts it for `action`. */
  predicate VerifyNonce(post: map<string, string>, action: string, verify: NonceCheck): (ok: bool)
    ensures NonceField !in post ==> !ok
    ensures NonceField in post ==> (ok <==> verify(post[NonceField], action))
  {
    NonceField in post && verify(post[NonceField], action)
  }

  /** `_save()` calls `save()` exactly when the POST body is non-empty and the nonce
      for the active tab's action verifies. */
  predicate SubmissionAccepted(req: Request, slug: string, defaultTab: string, tabs: seq<Tab>, verify: NonceCheck): (ok: bool)
    ensures |req.post| == 0 ==> !ok
    ensures |req.post| > 0 ==>
      (ok <==> VerifyNonce(req.post, NonceAction(slug, ResolveActiveTab(req.tab, defaultTab, tabs)), verify))
  {
    |req.post| > 0 && VerifyNonce(req.post, NonceAction(slug, ResolveActiveTab(req.tab, defaultTab, tabs)), verify)
  }

  /** If the host's nonces are bound to their action (a token passes only for the action
      it was minted for, and distinct actions get distinct tokens), a token rendered in
      tab `a`'s form passes verification while tab `b` is active exactly when `a == b`. */
  lemma TokenBoundToTab(post: map<string, string>, slug: string, a: string, b: string,
                        mint: string -> string, verify: NonceCheck)
    requires forall token, action :: verify(token, action) <==> token == mint(action)
    requires forall x, y :: mint(x) == mint(y) ==> x == y
    requires NonceField in post && post[NonceField] == mint(NonceAction(slug, Some(a)))
    ensures VerifyNonce(post, NonceAction(slug, Some(b)), verify) <==> a == b
  {
  }

  /** An empty POST body is never a submission, whatever the nonce check says. */
  lemma EmptyPostNeverSaves(req: Request, slug: string, defaultTab: string, tabs: seq<Tab>, verify: NonceCheck)
    requires req.post == map[]
    ensures !SubmissionAccepted(req, slug, defaultTab, tabs, verify)
  {
  }

  /** The page `{slug: "demo", tabs: {general: "General", advanced: "Advanced"}}` with no
      `tab` parameter: active tab, base URL and the link for "advanced". */
  lemma DemoPage()
    ensures ResolveActiveTab(None, "", [Tab("general", "General"), Tab("advanced", "Advanced")]) == Some("general")
    ensures BaseUrl("demo") == "admin.php?page=demo"
    ensures TabUrl("demo", "advanced") == "admin.php?page=demo&tab=advanced"
  {
  }
}
