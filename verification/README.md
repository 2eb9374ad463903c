# AbstractSettingsPage, modelled in Dafny

`AbstractSettingsPage` (namespace `WPOrbit\Components\Administration`) is the base class
of a tabbed WordPress administration settings page. A concrete page passes options to the
constructor (capability, page name, page slug, the ordered `tabs` array, whether to show the
tabs as submenu links). The page then registers its menu entry and per-tab submenu links.
It resolves the active tab from the request, prints the tab navigation and the feedback
messages, and dispatches to a method named after the active tab. A POST submission reaches
`save()` only when the body is non-empty and the WordPress nonce for "save-<slug>-<tab>"
verifies.

The model has two modules:

- `SettingsPageLogic` (`settings_page_logic.dfy`) holds the values and the pure logic:
  - the strings the page builds: base URL, tab link and nonce action;
  - active-tab resolution;
  - the rows appended to the submenu registry;
  - the anchors of the tab navigation with their active/inactive class;
  - the feedback blocks with their type-to-class mapping;
  - the submission gate.
- `SettingsPage` (`settings_page.dfy`) holds the state. Class `AbstractSettingsPage` has the
  page's fields, updated in place. Class `AdminMenu` stands for the host's global
  `$submenu` registry. The methods are proved against the functions of the first module.

Host primitives are inputs:

- the request is a `Request`: an optional `tab` query parameter and the POST body as a map;
- `wp_verify_nonce` is a `NonceCheck` function parameter, left uninterpreted;
- `method_exists($this, $tab)` is membership in a set of implemented tab keys;
- `static::class` is the constant field `className`, given to the constructor.

Three details of the code that are easy to misread:

- **Feedback type.** The type is any string. Only `success` and `error` get a class; any
  other type renders with class `""`. It is not a two-valued enumeration.
- **`default_tab`.** It cannot be set through the constructor options. The constructor
  always leaves it `""`. It is a protected field, which a concrete subclass can assign or
  redeclare; the model makes it a public `var` so that such an assignment can be expressed.
- **Empty tabs.** With no `tab` parameter, an empty `default_tab` and no tabs, PHP's
  `$keys[0]` is null. The model returns `None` here instead of requiring tabs to be
  non-empty. A null tab prints as `""` in the nonce action and in the missing-handler
  notice.

## Model

| member | source | states |
|---|---|---|
| `SettingsPage.AbstractSettingsPage.constructor` | code/AbstractSettingsPage.php:17-77 | each of capability, page name, page slug, tabs and show-tabs-in-menu is the supplied option when set, else its default (`manage_options`, `Settings Page`, `settings_page`, `[]`, true); `default_tab` is `""`, the feedback log empty, and the tab keys distinct (as in any PHP array) |
| `SettingsPage.AdminMenu.constructor` | code/AbstractSettingsPage.php:125 | the registry standing for the global `$submenu` starts with the given rows |
| `SettingsPage.AbstractSettingsPage.AddFeedbackMessage` | code/AbstractSettingsPage.php:101-107 | the log grows by exactly one entry `{message, type}` at the end (type defaults to `success`), earlier entries unchanged, and the rendered blocks grow by exactly that entry's block |
| `SettingsPage.AbstractSettingsPage.RegisterSubmenuLinks` | code/AbstractSettingsPage.php:123-141 | with the option on and tabs present, the rows under the page slug become the old rows followed by one `(label, capability, base URL + "&tab=" + key)` per tab in tab order; otherwise the registry is unchanged; other slugs are never touched |
| `SettingsPage.AbstractSettingsPage.RenderTabControls` | code/AbstractSettingsPage.php:177-194 | the navigation is `TabNav` for the resolved active tab: one anchor per tab, in order |
| `SettingsPage.AbstractSettingsPage.RenderFeedback` | code/AbstractSettingsPage.php:199-221 | the blocks printed are `FeedbackNotices` of the log: one per message, in insertion order |
| `SettingsPage.AbstractSettingsPage.RenderPage` | code/AbstractSettingsPage.php:226-245 | the heading carries the active tab's label exactly when it is a key; the navigation is `TabNav`; the form, with the feedback and a nonce field for `NonceAction(slug, active)`, appears exactly when a handler for the active tab exists, and otherwise the body is the notice naming the tab and the class |
| `SettingsPage.AbstractSettingsPage.Save` | code/AbstractSettingsPage.php:277-289 | the default save appends exactly one `error` message naming the class, whatever the active tab |
| `SettingsPage.AbstractSettingsPage.ProcessSubmission` | code/AbstractSettingsPage.php:294-303 | `save()` runs (once) exactly when the POST body is non-empty and the nonce for the active tab's action verifies; otherwise the feedback log is unchanged |
| `SettingsPageLogic.BaseUrl` | code/AbstractSettingsPage.php:169-172 | the base URL is `admin.php?page=` followed by the slug, which can be read back from it |
| `SettingsPageLogic.TabUrl` | code/AbstractSettingsPage.php:137 | a tab link is the base URL, then `&tab=`, then the key, each part recoverable from the link |
| `SettingsPageLogic.TabUrlInjective` | code/AbstractSettingsPage.php:185 | for one page, equal tab links mean equal tab keys |
| `SettingsPageLogic.NonceAction` | code/AbstractSettingsPage.php:250-253 | the action is `save-`, the slug, `-`, then the active tab (null as `""`), each part recoverable |
| `SettingsPageLogic.NonceActionInjective` | code/AbstractSettingsPage.php:250-253 | for a fixed slug, two different active tabs give two different action strings |
| `SettingsPageLogic.NonceActionCrossPageCollision` | code/AbstractSettingsPage.php:252 | across pages the action is not unique: slug `a-b` with tab `c` and slug `a` with tab `b-c` give the same action |
| `SettingsPageLogic.ResolveActiveTab` | code/AbstractSettingsPage.php:146-162 | the `tab` parameter wins verbatim; else a `default_tab` other than `""`/`"0"`; else the first tab key; the result is missing (PHP null) only when all three are |
| `SettingsPageLogic.ActiveTabIsKey` | code/AbstractSettingsPage.php:153-161 | with no `tab` parameter, non-empty tabs and a `default_tab` that is empty or a key, the active tab is a key of `tabs` |
| `SettingsPageLogic.CaptionIn` | code/AbstractSettingsPage.php:231 | the lookup `$tabs[$key]` finds a label exactly when `key` is a tab key, and the label found belongs to that key |
| `SettingsPageLogic.TabLinks` | code/AbstractSettingsPage.php:131-139 | one submenu row per tab, in tab order, each `(label, capability, TabUrl(slug, key))` |
| `SettingsPageLogic.TabLinksAppend` | code/AbstractSettingsPage.php:134-138 | one more tab appends exactly its row after the earlier ones |
| `SettingsPageLogic.TabLinksDistinctUrls` | code/AbstractSettingsPage.php:131-138 | with distinct keys, the registered rows link to pairwise distinct URLs |
| `SettingsPageLogic.TabNav` | code/AbstractSettingsPage.php:183-191 | one anchor per tab, in order, linking to the tab's URL with its label; its class is `nav-tab nav-tab-active` exactly when the key equals the active tab, else `nav-tab` |
| `SettingsPageLogic.TabNavAppend` | code/AbstractSettingsPage.php:183-187 | one more tab appends exactly its anchor after the earlier ones |
| `SettingsPageLogic.ActiveTabHighlightedOnce` | code/AbstractSettingsPage.php:186 | when the active tab is one of the (distinct) keys, exactly one anchor is highlighted |
| `SettingsPageLogic.UnknownTabHighlightsNothing` | code/AbstractSettingsPage.php:186 | when the active tab is not a key, no anchor is highlighted |
| `SettingsPageLogic.NoticeClass` | code/AbstractSettingsPage.php:204-213 | `success` maps to `updated notice`, `error` to `error notice`, every other type to `""` |
| `SettingsPageLogic.FeedbackNotices` | code/AbstractSettingsPage.php:202-218 | one block per message, in insertion order, with the message text and `NoticeClass` of its type |
| `SettingsPageLogic.FeedbackNoticesAppend` | code/AbstractSettingsPage.php:103-106 | appending a message appends exactly its block after the earlier blocks |
| `SettingsPageLogic.MissingHandlerMessage` | code/AbstractSettingsPage.php:241 | the notice is `Method `, the tab, `() is not defined in `, the class name, then `.`, each part recoverable |
| `SettingsPageLogic.VerifyNonce` | code/AbstractSettingsPage.php:266-274 | verification fails when no `_wpnonce` field is posted; otherwise it succeeds exactly when the host accepts the posted token for the action |
| `SettingsPageLogic.SubmissionAccepted` | code/AbstractSettingsPage.php:297 | an empty POST body is never accepted; a non-empty one is accepted exactly when the nonce verifies for the active tab's action |
| `SettingsPageLogic.OverrideSaveMessage` | code/AbstractSettingsPage.php:285-286 | the default save's message is `Override the save() function in `, the class name, then `.` |
| `SettingsPageLogic.TokenBoundToTab` | code/AbstractSettingsPage.php:266-274 | if the host's tokens pass only for the action they were minted for, a token from tab `a`'s form passes while tab `b` is active exactly when `a == b` |
| `SettingsPageLogic.EmptyPostNeverSaves` | code/AbstractSettingsPage.php:297-300 | an empty POST body never reaches `save()`, whatever the nonce check says |
| `SettingsPageLogic.DemoPage` | code/AbstractSettingsPage.php:146-172 | for slug `demo` with tabs `general`, `advanced` and no `tab` parameter: active tab `general`, base URL `admin.php?page=demo`, link `admin.php?page=demo&tab=advanced` |

## Left out

- Hook wiring is not modelled: `add_action` in the constructor, `initialize` and `register_menu_page` (`add_menu_page`). These are calls into WordPress with no logic of their own. The only logic is the show-tabs-in-menu guard, which `RegisterSubmenuLinks` repeats.
- `render_nonce` / `wp_nonce_field` are modelled only as the action the form's nonce field is bound to (`TabForm.nonceAction`). Token generation and verification are cryptography inside WordPress. Verification is the uninterpreted `NonceCheck` parameter.
- The HTML text that `render_page`, `render_tab_controls` and `render_feedback` print is not modelled. The model keeps their decisions: which anchors, which classes and which blocks appear, in which order, and whether the form or the missing-handler notice is shown.
- The tab's own handler `$this->{$active_tab}()` is not modelled beyond its name (`TabForm.handler`). `method_exists` is membership in the `implemented` set.
- Overriding `save()` in a concrete class is not modelled. The model has the default `save()`. `ProcessSubmission` reports through its result whether `save()` ran.
- `RenderPage`: `method_exists($this, $tab)` is also true for the class's own public methods, and the model's `implemented` set does not capture that. With `?tab=render_page` the page's render calls itself without bound. With `?tab=save` the default save runs inside the form. The model treats `implemented` as an arbitrary set of tab handlers.
- `NonceActionInjective`: holds for one slug only. Across pages a dash in a slug or tab can make two pages share an action (`NonceActionCrossPageCollision`), so a token from one page's form could verify on another. The model does not add a separator that would prevent it, because the code has none.
- PHP's loose `==` comparisons are modelled as string equality.
- PHP undefined-index warnings are not modelled, for example `$this->tabs[$active_tab]` for an unknown tab. The missing label is `None`.
- Non-string option values (integer tab keys, a non-boolean `show_tabs_in_menu`) are not modelled. The options are typed.
- A concrete class that redeclares a property default (`protected $capability = ...`) is not modelled. The fields are public, so a concrete page's assignments can be expressed directly.
