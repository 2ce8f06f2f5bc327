# Theme engine of `ThemeProvider`, in Dafny

This project models the theme engine of the React component `ThemeProvider`
(`src/App.js`), together with the cookie helpers it uses, and proves properties of
that model.

The engine keeps these pieces of state:
- a base theme (the user's preference);
- a current theme (what is painted);
- an auto flag (follow the system colour scheme);
- a transition flag;
- an optional user id;
- the current route.

It also writes through to the browser's stores: the cookie jar, `localStorage`,
and the `userThemesDB` map kept inside `localStorage`.

## Files

The modules follow the structure of the program.

- `wrappers.dfy`: `Option`, standing for `null`/`undefined`.
- `strings.dfy`: the JavaScript string operations the engine relies on: `indexOf`,
  `split`, `join` and `trim`.
- `uri.dfy`: `encodeURIComponent` and `decodeURIComponent` over ASCII.
- `cookies.dfy`:
  - `getCookie` (a left fold over the `; `-separated entries);
  - the text `setCookie` assigns;
  - a model of the browser's cookie store behind `document.cookie`.
- `themes.dfy`: the static data and the pure helpers around it:
  - the palette table and the route override table;
  - `applySystemTheme`'s choice of theme;
  - the server marker `/theme-(\w+)/`;
  - the text of the CSS-variable stylesheet and a parser that reads it back.
- `nonce.dfy`: the hex text of the nonce bytes, and a parser that reads the bytes back.
- `engine.dfy`: the engine as a state machine over values. It contains:
  - every effect as a function;
  - one React commit (`Commit`);
  - the renders that follow a batch of state updates (`Render`);
  - the mount (`Mount`);
  - one function per operation or event;
  - the invariants, and the lemmas about all of these.
- `provider.dfy`: `class ThemeProvider`, whose fields are the React state, the stores
  and the page. Each handler and effect is a method that updates the fields in place.
  Each such method is proved to leave exactly the `State()` that the `Engine` function
  of the same name computes. Every `Engine` lemma is therefore a statement about the
  class.

## How React is modelled

These rules come from React, not from the source file; the source relies on them.

- Setter calls queue values. The queued values land together after the commit in which
  they were queued, and effects read the values of the render they belong to.
- After a render, an effect runs when one of its dependencies differs from the previous
  render's. On mount, every effect runs.
- `Render` is three commits in a row. `FlushStable` proves that further commits change
  nothing, so three commits reach the stable page.
- At mount, the init effect (`src/App.js:88-139`) reads the stores first. The apply and
  autoTheme effects of the same commit then write `'light'` and `'false'` into them, and
  the init effect's queued values land after that commit.
- The DB load started at mount is a separate event, `UserThemeLoaded`, that can land at
  any later point. That is how a real remote store behaves. The source's DB lives in
  `localStorage`, so there its result lands right after the mount's effects, before
  any click. `MountWithLoadedTheme` models that timing; see "Quirks of the code".
- A timer is a token. Scheduling a new transition clears the pending timer. Only the
  pending token can end the transition (`TimerFired`).
- The `matchMedia` results are inputs in `Env`:
  - `prefersDark` and `prefersReducedMotion`;
  - the expiry text of a cookie.
- The bytes of the nonce are an input of the constructor.

## Quirks of the code

The model keeps each behaviour below as the code has it, and states it in a lemma.

- **Stored themes are not checked.** One might expect a stored value that names no
  theme to be ignored. The code uses the cookie and `localStorage` themes unchecked
  (`src/App.js:112-120`), as `MountFallback` states.
- **`changeTheme` does not validate.** One might expect an unknown theme to be refused.
  The code applies any argument (`src/App.js:206-209`), so `ChangeThemeSpec` holds for
  every string.
- **Rejected imports are silent.** An import that parses but names no known theme
  changes nothing and reports nothing (`src/App.js:252-255`). `NeonImportScenario`
  states this for `"neon"`. The `catch` logs only when the handler throws
  (`src/App.js:256-258`). That happens when the text does not parse, and also for the
  document `null`, whose `currentTheme` cannot be read. `ImportThemeSpec` covers all
  three kinds of file.
- **Prototype names pass the theme check.** The check `themes[x]` is a truthy property
  lookup. It also accepts the names of `Object.prototype` properties such as
  `constructor`, and the model gives `IsKnownTheme` that meaning
  (`InheritedNameHasNoPalette`). Such a name has no palette, so `applyThemeVariables`
  would throw on it; `StyleSheet` is then `None`.
- **The listener follows the cookie, not the state.** The system-preference listener
  captured the mount-time `autoTheme`, which is `false`. Only the `autoTheme` cookie
  gates it (`SystemThemeChangedGate`). While the stores are in step with the state, the
  two agree (`SystemGateIsAutoMode`).
- **The server marker wins unconditionally.** When the marker names a known theme, the
  code reads neither the `autoTheme` cookie nor the stored user
  (`MountServerMarker`). The provider writes the class `theme-<current>` itself, so a
  later mount on the same page takes the painted theme from the marker
  (`RemountKeepsPaintedTheme`).
- **Transitions follow the apply effect's dependencies.** Those are `currentTheme`,
  `baseTheme` and `userId` (`src/App.js:170`).
  - Switching auto mode off keeps the base theme and starts no transition
    (`ToggleOffKeepsTransition`).
  - Logging in as a new user starts one, although no theme changes
    (`LoginStartsTransition`).
- **The current theme is stored, and can drift from the route rule.** The code stores
  `currentTheme`. The route effect updates it only when the route or the base theme
  changes. At mount, a stored `dark` theme with auto mode restored under a light system
  gives base `light` with `dark` on screen at `/` (`MountDrift`, `MountDriftWitness`).
  Once drifted, choosing the base theme again or navigating to the current route does
  not repaint, because neither changes a dependency of the route effect
  (`ChangeThemeKeepsDrift`, `NavigateKeepsDrift`). Only a change of base theme or route
  restores the rule.
  Every operation and event except the late DB event keeps the current theme derived
  if it was derived before (`…KeepsInvariants`).
- **When the DB theme lands.** The code starts the DB load at mount. The result replaces
  the base and current theme when it lands (`src/App.js:101-106`). The two timings
  differ:
  - *Right after mount*, as the `localStorage`-backed DB of the source does
    (`MountWithLoadedThemeSpec`). The DB theme joins the init effect's updates, and the
    route rule holds afterwards. With an `autoTheme` cookie of `'true'`, the autoTheme
    effect runs after the DB theme landed and replaces it with the system theme.
  - *As a later event* (`UserThemeLoaded`, which `Provider.ThemeProvider.OnUserThemeLoaded`
    follows), for a store that answers later. The DB theme becomes the base theme even
    in auto mode, because the autoTheme effect does not run again
    (`UserThemeLoadedApplies`). If the result equals the base theme and arrives on an
    overridden route, the base theme is painted instead of the override
    (`UserThemeLoadedDrift`). This drift therefore follows from modelling the load as a
    later event. The source's `localStorage` DB cannot reach it.

## Model

| member | source | states |
|---|---|---|
| `Strings.IndexOf` | src/App.js:292 | `indexOf(sep)`: an occurrence of `sep`, the first one, and none at all when the result is `None` |
| `Strings.Split` | src/App.js:291-292 | no contract beyond a non-empty result; defines `split(sep)` as the pieces between successive occurrences (partners `JoinSplit`, `SplitJoin`) |
| `Strings.Join` | src/App.js:199-201 | no contract; defines `join(sep)` (partners `JoinSplit`, `SplitJoin`) |
| `Strings.Trim` | src/App.js:495-501 | `trim()` removes exactly the leading and trailing JavaScript whitespace; the result is empty iff the input is all whitespace, and it is the input's middle slice |
| `Strings.TrimUnpadded` | src/App.js:495-501 | a string with no whitespace at either end is unchanged by `trim()` |
| `Strings.JoinSplit` | src/App.js:291-292 | joining the pieces of `split(sep)` gives back the original text |
| `Strings.SplitJoin` | src/App.js:291 | splitting joined pieces gives the pieces back when none contains the separator's first character |
| `UriComponent.Encode` | src/App.js:287 | every character of the encoded text is unreserved, `%` or non-ASCII; defines `encodeURIComponent` over ASCII (partner `DecodeEncode`) |
| `UriComponent.Decode` | src/App.js:293 | no contract; defines `decodeURIComponent` of ASCII escapes (partner `DecodeEncode`) |
| `UriComponent.DecodeEncode` | src/App.js:285-295 | `decodeURIComponent(encodeURIComponent(v)) == v` |
| `UriComponent.EncodeInjective` | src/App.js:287 | distinct values are written as distinct cookie values |
| `UriComponent.EncodeDelimiterFree` | src/App.js:287 | an encoded value contains no `;`, `=`, space or tab, and so cannot break the cookie entry |
| `UriComponent.EncodeUnreserved` | src/App.js:287 | a value made of unreserved characters, such as every theme name and `true`/`false`, is written unchanged |
| `Cookies.EntryName` | src/App.js:292-293 | no contract; defines `v.split('=')[0]` |
| `Cookies.EntryValue` | src/App.js:292-293 | no contract; defines `decodeURIComponent(parts[1])`, with `undefined` for a missing second part (partner `BareEntryParts`) |
| `Cookies.Reduce` | src/App.js:291-294 | no contract; defines the `reduce` fold (partner `ReduceLastMatch`) |
| `Cookies.GetCookie` | src/App.js:290-295 | no contract; defines `getCookie` on the text of `document.cookie` (partner `GetCookieLastMatch`) |
| `Cookies.LastMatch` | src/App.js:290-295 | no contract; the reference reading: the decoded value of the last entry named exactly `name` |
| `Cookies.ReduceLastMatch` | src/App.js:291-294 | the `reduce` fold returns the value of the last matching entry, or its start value when none matches |
| `Cookies.GetCookieLastMatch` | src/App.js:290-295 | `getCookie(name)` is the decoded value of the last `; `-separated entry whose name is exactly `name`, and `''` when there is none |
| `Cookies.BareEntryParts` | src/App.js:292-293 | an entry without `=` is named by its whole text, and its value reads as the text `undefined` |
| `Cookies.LastMatchBareEntry` | src/App.js:291-294 | a last entry without `=` decides the reading of its own name: `undefined` |
| `Cookies.BareEntryReadsUndefined` | src/App.js:290-295 | for every cookie text made of entries without `;` whose last entry is a bare `name` (no `=`), `getCookie(name)` is the text `undefined` |
| `Cookies.SetCookieText` | src/App.js:285-288 | no contract; defines the text `setCookie` assigns (partners `ParseSetCookieText`, `ReadAfterSetCookie`) |
| `Cookies.WriteCookie` | src/App.js:287 | no contract; defines how the browser's store takes an assignment to `document.cookie` (partners `WriteCookieValid`, `ReadAfterSetCookie`) |
| `Cookies.ReadCookie` | src/App.js:290-295 | no contract; defines `getCookie` against the browser's store (partner `ReadCookieLookup`) |
| `Cookies.ParseSetCookie` | src/App.js:287 | a cookie the browser keeps from an assignment has a non-empty name without `=` or `;`, and a value without `;` |
| `Cookies.ParseSetCookieText` | src/App.js:285-288 | the browser keeps exactly the pair `name=encodeURIComponent(value)` from the text `setCookie` assigns |
| `Cookies.StoreValid` | src/App.js:287 | storing a cookie keeps one cookie per name, with valid names and values |
| `Cookies.StoreLookup` | src/App.js:287 | after a cookie is stored, its name reads its value, and every other name reads what it read before |
| `Cookies.WriteCookieValid` | src/App.js:287 | any assignment to `document.cookie` leaves the store valid |
| `Cookies.ReadCookieLookup` | src/App.js:290-295 | `getCookie` on the browser's `document.cookie` text reads the stored value of `name` decoded, or `''` when it is absent |
| `Cookies.ReadAfterSetCookie` | src/App.js:285-295 | round trip: after `setCookie(name, value)`, `getCookie(name)` is `value`, every other cookie reads as before, and the store stays valid |
| `Themes.IsKnownTheme` | src/App.js:94 | no contract; defines the truthy lookup `themes[x]` (partner `InheritedNameHasNoPalette`) |
| `Themes.EffectiveTheme` | src/App.js:78-85 | no contract; defines the route effect's choice (partners `EffectiveThemeOverride`, `EffectiveThemeHasPalette`) |
| `Themes.SystemTheme` | src/App.js:181-184 | the system theme is `dark` iff the system prefers dark, is never `highContrast`, and always has a palette |
| `Themes.EffectiveThemeOverride` | src/App.js:78-85 | on an overridden route the shown theme does not depend on the base theme; elsewhere it is the base theme (equal iff the base themes are equal) |
| `Themes.EffectiveThemeHasPalette` | src/App.js:51-55 | the override table only names real themes, so a real base theme always gives a shown theme with a palette |
| `Themes.InheritedNameHasNoPalette` | src/App.js:94 | the `themes[x]` check accepts `constructor`, which has no palette |
| `Themes.MarkerIndex` | src/App.js:91 | the leftmost index at which `theme-` followed by a word character occurs, or none when it occurs nowhere |
| `Themes.WordPrefix` | src/App.js:91 | the greedy `\w+`: the longest prefix made of word characters |
| `Themes.ServerTheme` | src/App.js:91-92 | a marker match yields a non-empty name made of word characters |
| `Themes.ServerThemeOfClass` | src/App.js:165 | the class `theme-<name>` written for a word-character name is read back as `name` by the marker match |
| `Themes.ThemeNamesAreWords` | src/App.js:8-48 | every palette name is made of word characters |
| `Themes.Declarations` | src/App.js:199-200 | one declaration per colour role; defines the `map` to `--color-<role>: <value>;` |
| `Themes.StyleText` | src/App.js:199-203 | no contract; defines the stylesheet text (partner `StyleRoundTrip`) |
| `Themes.ThemeStyle` | src/App.js:186-203 | no contract; defines the stylesheet of a theme, `None` where `themes[name].colors` would throw (partner `ThemeStyleRoundTrip`) |
| `Themes.PaletteWellFormed` | src/App.js:8-48 | every palette has eight colour roles, and no role or value contains a line break or a `:` in the role |
| `Themes.StyleRoundTrip` | src/App.js:199-203 | the stylesheet text of a non-empty well-formed palette reads back as exactly that palette, in order |
| `Themes.ThemeStyleRoundTrip` | src/App.js:186-203 | each theme's stylesheet text exists and reads back as its palette of eight roles |
| `Nonce.HexDigit` | src/App.js:73 | a digit of `toString(16)` is a lower-case hex digit |
| `Nonce.ByteHex` | src/App.js:73 | no contract; defines `b.toString(16).padStart(2, '0')` (partner `ByteHexDigits`) |
| `Nonce.NonceHex` | src/App.js:72-74 | no contract; defines the nonce text of the bytes (partners `NonceHexShape`, `ParseNonceHex`) |
| `Nonce.ToHex` | src/App.js:73 | `toString(16)` writes at least one digit |
| `Nonce.PadStart` | src/App.js:73 | `padStart(len)` gives the longer of the input and `len` |
| `Nonce.ByteHexDigits` | src/App.js:73 | each byte becomes exactly two lower-case hex digits, high nibble first |
| `Nonce.NonceHexShape` | src/App.js:72-74 | the nonce text is twice as long as the bytes and uses only lower-case hex digits |
| `Nonce.ParseNonceHex` | src/App.js:72-74 | the nonce text reads back as exactly the bytes it was made from |
| `Engine.GetItem` | src/App.js:116 | no contract; defines `localStorage.getItem` |
| `Engine.SetCookie` | src/App.js:156 | no contract; defines `setCookie(name, value, 365)` on the stores (partner `SetCookieFrame`) |
| `Engine.SaveUserThemeToDB` | src/App.js:220-224 | no contract; defines the DB write for one user (partner `PersistThemeFrame`) |
| `Engine.PersistTheme` | src/App.js:155-162 | no contract; defines the apply effect's persistence (partners `PersistThemeMirror`, `PersistThemeFrame`) |
| `Engine.PersistAutoTheme` | src/App.js:172-174 | no contract; defines the autoTheme effect's persistence (partners `PersistAutoMirror`, `PersistAutoFrame`) |
| `Engine.TransitionDelay` | src/App.js:150-153 | no contract; defines the timer delay, 0 or 500 ms (partner `RenderTransition`) |
| `Engine.TransitionDuration` | src/App.js:145-148 | no contract; defines `--transition-duration` (partner `RenderTransition`) |
| `Engine.ApplyThemeEffect` | src/App.js:142-170 | no contract; defines the apply effect (partners `CommitTimer`, `CommitSynced`) |
| `Engine.ApplySystemTheme` | src/App.js:181-184 | no contract; defines `applySystemTheme` (partner `Themes.SystemTheme`) |
| `Engine.StyleSheet` | src/App.js:199-203 | no contract; defines the stylesheet text of the page (partner `Themes.ThemeStyleRoundTrip`) |
| `Engine.Commit` | src/App.js:78-179 | no contract; defines one commit of the three effects (partners `CommitFrame`, `CommitSynced`, `CommitTimer`) |
| `Engine.Flush` | src/App.js:78-179 | no contract; defines successive commits (partners `FlushUnchanged`, `FlushStable`) |
| `Engine.Render` | src/App.js:78-179 | no contract; defines the renders that follow a batch of updates (partners `RenderFrame`, `RenderSynced`, `RenderTransition`) |
| `Engine.InitialState` | src/App.js:58-64 | no contract; defines the `useState` initial values |
| `Engine.StoredTheme` | src/App.js:109-121 | no contract; defines the cookie, then `localStorage`, theme lookup (partner `MountFallback`) |
| `Engine.HasServerTheme` | src/App.js:90-94 | no contract; defines the marker branch's condition (partners `MountServerMarker`, `MountUnknownMarker`) |
| `Engine.InitEffect` | src/App.js:88-127 | no contract; defines the updates the init effect queues (partners `MountOutcome`, `MountFallback`, `MountServerMarker`) |
| `Engine.MountCommitFrom` | src/App.js:142-179 | no contract; defines the mount commit from a start state (partner `MountCommitFields`) |
| `Engine.MountCommit` | src/App.js:88-179 | no contract; defines the mount commit (partner `MountCommitFields`) |
| `Engine.Mount` | src/App.js:57-179 | no contract; defines the mount (partners `MountOutcome`, `MountSynced`) |
| `Engine.ChangeTheme` | src/App.js:206-209 | no contract; defines `changeTheme` (partners `ChangeThemeSpec`, `ChangeThemeIdempotent`) |
| `Engine.ToggleAutoTheme` | src/App.js:211-213 | no contract; defines `toggleAutoTheme` (partner `ToggleAutoThemeSpec`) |
| `Engine.NavigateToRoute` | src/App.js:215-217 | no contract; defines `navigateToRoute` (partner `NavigateToRouteSpec`) |
| `Engine.SystemThemeChanged` | src/App.js:129-134 | no contract; defines the listener (partners `SystemThemeChangedGate`, `SystemThemeChangedSpec`) |
| `Engine.UserThemeLoaded` | src/App.js:101-106 | no contract; defines the DB result as a later event (partner `UserThemeLoadedApplies`) |
| `Engine.TimerFired` | src/App.js:150-153 | no contract; defines a firing timer (partner `TimerFiredSpec`) |
| `Engine.ImportAccepted` | src/App.js:252 | no contract; defines the import's acceptance test |
| `Engine.ImportTheme` | src/App.js:247-261 | no contract; defines `importTheme` once the file is read (partners `ImportThemeSpec`, `ExportImportRoundTrip`) |
| `Engine.ImportLogsError` | src/App.js:256-258 | no contract; defines which files the `catch` logs (partner `ImportThemeSpec`) |
| `Engine.ExportTheme` | src/App.js:231-236 | no contract; defines the export payload (partner `ExportImportRoundTrip`) |
| `Engine.ExportedFile` | src/App.js:238 | no contract; defines what an import reads back from the exported JSON (partner `ExportImportRoundTrip`) |
| `Engine.Login` | src/App.js:495-501 | no contract; defines `handleLogin` (partner `LoginSpec`) |
| `Engine.Logout` | src/App.js:503-506 | no contract; defines `handleLogout` (partner `LogoutSpec`) |
| `Engine.LoadUserThemeFromDB` | src/App.js:226-229 | the lookup finds a theme iff the user has a non-empty DB entry, and then returns that entry; missing and empty entries give `null`, and the result is truthy iff it was found |
| `Engine.FlushUnchanged` | src/App.js:78-179 | when no dependency changed, no effect runs and the state stays as it is |
| `Engine.CommitFrame` | src/App.js:78-179 | one commit keeps the route, the auto flag, the user and the pending DB load; it sets the current theme from the route when the route or base theme changed, and the base theme to the system's when auto mode was just switched on |
| `Engine.RenderSteps` | src/App.js:78-179 | a render is the three commits spelled out; after the first, the base theme is fixed, and the third changes no dependency |
| `Engine.FlushStable` | src/App.js:78-179 | any number of commits from three on gives the same state as a render |
| `Engine.RenderFrame` | src/App.js:78-184 | a render keeps the route, the auto flag, the user, the nonce and the pending DB load; it changes the base theme only to the system theme when auto mode was just switched on |
| `Engine.RenderConsistent` | src/App.js:78-85 | after a render that changed the route or the base theme, or that started from a derived current theme, the current theme is the route's override or the base theme |
| `Engine.RenderCurrent` | src/App.js:78-85 | the current theme after a render that does not switch to the system theme: the route rule if the route or base changed, else unchanged |
| `Engine.PersistThemeMirror` | src/App.js:155-162 | after the theme persistence, the cookie and `localStorage` hold the base theme, and the logged-in user's DB entry holds it too |
| `Engine.PersistAutoMirror` | src/App.js:172-174 | after the auto persistence, the cookie and `localStorage` hold `autoTheme.toString()` |
| `Engine.CommitSynced` | src/App.js:142-179 | a commit brings the stores, the page and the timer up to the values it rendered |
| `Engine.RenderSynced` | src/App.js:142-179 | after a render, every store holds the base theme and auto flag, never a route override; the page shows the current theme; the transition flag matches the pending timer |
| `Engine.SetCookieFrame` | src/App.js:285-288 | writing the `theme` or `autoTheme` cookie leaves every other cookie as it was |
| `Engine.PersistThemeFrame` | src/App.js:155-162 | the theme persistence touches only the `theme` entries, and the DB only at the logged-in user's key (not at all when nobody is logged in) |
| `Engine.PersistAutoFrame` | src/App.js:172-174 | the auto persistence touches only the `autoTheme` entries and never the DB |
| `Engine.CommitStoreFrame` | src/App.js:155-174 | one commit writes only the provider's own entries |
| `Engine.RenderStoreFrame` | src/App.js:155-174 | a render leaves every other `localStorage` key, every other cookie and every other DB entry unchanged |
| `Engine.CommitTimer` | src/App.js:142-170 | a commit that runs the apply effect raises the flag and schedules the next token with the delay the motion preference asks for; otherwise the timer is untouched |
| `Engine.RenderTransition` | src/App.js:142-170 | every change of the current theme, base theme or user starts a transition (0 ms or 500 ms) whose timer is the newest; any timer scheduled before can no longer end it; otherwise the transition state is unchanged |
| `Engine.MountCommitFields` | src/App.js:88-127 | after the mount commit, the state holds exactly what the init effect queued; with auto mode on, the base theme is the system's |
| `Engine.MountOutcome` | src/App.js:88-127 | the state a mount settles in, in terms of what the init effect read |
| `Engine.MountRender` | src/App.js:78-179 | the renders after the mount commit keep the base theme, the auto flag and the user, and show the base theme at `/` when it moved |
| `Engine.MountStoresMirror` | src/App.js:155-174 | the mount's own writes leave the stores holding `light` and `false` |
| `Engine.MountSynced` | src/App.js:142-179 | after mount, whatever the stores held before, every store and the page agree with the state |
| `Engine.MountServerMarker` | src/App.js:90-97 | a marker naming a known theme becomes both base and current theme, auto mode stays off, no user is restored, and the stores do not matter |
| `Engine.MountUnknownMarker` | src/App.js:94 | a marker that names no known theme gives the same mount as no marker |
| `Engine.MountFallback` | src/App.js:98-126 | without a valid marker: the cookie theme, else the `localStorage` theme, else `light`, all unchecked; an `autoTheme` cookie of `true` turns auto mode on with the system theme as base; a stored user id is restored and its DB theme is pending |
| `Engine.UserThemeLoadedApplies` | src/App.js:101-106 | the DB theme found at mount lands later and becomes the base theme; a DB theme that differs from the base also becomes the shown theme under the route rule |
| `Engine.MountWithLoadedTheme` | src/App.js:101-106 | no contract; defines the mount when the DB result lands right after the mount's effects, as for the `localStorage` DB |
| `Engine.MountWithLoadedThemeSpec` | src/App.js:101-106 | with that timing the route rule holds after mount; the DB theme is the base theme, except that an `autoTheme` cookie of `true` makes it the system theme; without a DB theme the mount is unchanged |
| `Engine.RemountKeepsPaintedTheme` | src/App.js:164-165 | a page painted in a real theme carries it as its class, so a mount on that page keeps it, with auto mode off |
| `Engine.ChangeThemeSpec` | src/App.js:206-209 | `changeTheme(x)`, for any string `x`: auto off, base `x`, a transition started when the base changed, and only the provider's store entries written; the shown theme follows the route rule when `x` differs from the old base or the old state already obeyed the rule (otherwise no effect repaints, see `ChangeThemeKeepsDrift`) |
| `Engine.ChangeThemeIdempotent` | src/App.js:206-209 | calling `changeTheme(x)` twice gives the same state as calling it once |
| `Engine.ToggleAutoThemeSpec` | src/App.js:211-213 | the flag flips; switching on sets the base to `dark` iff the system prefers dark, never `highContrast`; switching off keeps the base |
| `Engine.SystemGateIsAutoMode` | src/App.js:130-134 | while the stores are in step, the cookie that gates the listener says exactly whether auto mode is on |
| `Engine.SystemThemeChangedGate` | src/App.js:129-134 | the listener as written: an `autoTheme` cookie other than `true` leaves the state unchanged; otherwise the base theme becomes the system's |
| `Engine.SystemThemeChangedSpec` | src/App.js:129-134 | with the stores in step: in auto mode the base follows the system; otherwise the notification changes nothing |
| `Engine.NavigateToRouteSpec` | src/App.js:215-217 | navigation changes the route and never the base theme, auto flag or user; when the route changes or the old state already obeyed the route rule, the shown theme is the override or the base, so leaving an overridden route shows the base again (re-navigating to the current route repaints nothing, see `NavigateKeepsDrift`) |
| `Engine.ImportThemeSpec` | src/App.js:247-261 | a file that does not parse, the document `null`, or a file naming no accepted theme changes nothing; an accepted file sets the base theme and `autoTheme \|\| false`; only the two throwing files are logged, never a rejected theme |
| `Engine.ExportImportRoundTrip` | src/App.js:231-236 | the export records the base theme (not the override) and the auto flag, and importing it back changes nothing in any state |
| `Engine.LoginSpec` | src/App.js:495-501 | a blank id changes nothing; otherwise the trimmed id is stored, the current base theme is saved for it in the DB, and everything stays in step |
| `Engine.LogoutSpec` | src/App.js:503-506 | logout forgets the user and its `localStorage` key; the DB and the preferences are kept |
| `Engine.TimerFiredSpec` | src/App.js:150-153 | only the newest timer ends the transition; any other token leaves the state unchanged |
| `Engine.ToggleOffKeepsTransition` | src/App.js:142-170 | switching auto mode off starts no transition: the apply effect does not depend on the auto flag |
| `Engine.LoginStartsTransition` | src/App.js:142-170 | logging in as a new user starts a transition with the motion preference's delay, although no theme changes |
| `Engine.ResyncAfter` | src/App.js:142-179 | a batch of updates that leaves the stores and page in step with the old state gives a synced state after the render |
| `Engine.ChangeThemeKeepsInvariants` | src/App.js:206-209 | `changeTheme` keeps the stores in step and the shown theme derived |
| `Engine.ToggleAutoThemeKeepsInvariants` | src/App.js:211-213 | `toggleAutoTheme` keeps the stores in step and the shown theme derived |
| `Engine.NavigateKeepsInvariants` | src/App.js:215-217 | navigation keeps the stores in step and the shown theme derived |
| `Engine.SystemThemeChangedKeepsInvariants` | src/App.js:129-134 | the listener keeps the stores in step and the shown theme derived |
| `Engine.UserThemeLoadedKeepsSynced` | src/App.js:101-106 | the late DB result keeps the stores in step |
| `Engine.ImportKeepsInvariants` | src/App.js:247-261 | an import keeps the stores in step and the shown theme derived |
| `Engine.LoginKeepsInvariants` | src/App.js:495-501 | login keeps the stores in step and the shown theme derived |
| `Engine.LogoutKeepsInvariants` | src/App.js:503-506 | logout keeps the stores in step and the shown theme derived |
| `Engine.TimerFiredKeepsInvariants` | src/App.js:150-153 | a timer keeps the stores in step and the shown theme derived |
| `Engine.MountDrift` | src/App.js:109-126 | a stored `dark` theme with auto mode restored under a light system: base `light`, `dark` on screen at `/`, and the route rule broken |
| `Engine.PreviousVisitReads` | src/App.js:285-295 | the jar left by `setCookie('theme', 'dark')` and `setCookie('autoTheme', 'true')` reads back those values |
| `Engine.MountDriftWitness` | src/App.js:109-126 | the drift occurs on a concrete page: no marker, the cookies of such a visit, a light system |
| `Engine.ChangeThemeKeepsDrift` | src/App.js:78-85 | in a drifted state, `changeTheme` with the current base theme leaves base and shown theme as they were, so the drift stays |
| `Engine.NavigateKeepsDrift` | src/App.js:215-217 | in a drifted state, navigating to the current route leaves base and shown theme as they were, so the drift stays |
| `Engine.UserThemeLoadedDrift` | src/App.js:101-106 | with the DB load as a later event: a DB theme equal to the base, landing on an overridden route, paints the base theme and breaks the route rule |
| `Engine.EmptyBootScenario` | src/App.js:88-127 | nothing stored and no marker: `light`, auto mode off, no user |
| `Engine.CookieAutoScenario` | src/App.js:109-134 | cookie `theme=dark`, `autoTheme=true` and a dark system give auto mode with a dark base; a later light notification makes the base `light` without `changeTheme` |
| `Engine.AutoThenManualScenario` | src/App.js:206-213 | auto mode switched on under a dark system gives `dark`; a manual `light` turns it off; later notifications leave the state unchanged |
| `Engine.NeonImportScenario` | src/App.js:252-258 | importing `neon` changes nothing and reports nothing |
| `Provider.ThemeProvider.constructor` | src/App.js:57-139 | the new provider's state is the mount of the page class and stores, with the hex text of the random bytes as nonce |
| `Provider.ThemeProvider.MountCommit` | src/App.js:142-179 | the mount commit: the apply and autoTheme effects with the initial values, then the init effect's queued updates |
| `Provider.ThemeProvider.ApplyInitUpdates` | src/App.js:95-124 | the updates queued by the init effect land, and nothing else changes |
| `Provider.ThemeProvider.SetCookie` | src/App.js:285-288 | only the cookie jar changes, by the browser's handling of the `setCookie` text |
| `Provider.ThemeProvider.SaveUserThemeToDB` | src/App.js:220-224 | the DB entry for the user becomes the theme, and every other DB entry is unchanged |
| `Provider.ThemeProvider.LoadUserThemeFromDB` | src/App.js:226-229 | the stored theme for the user, or `None` when it is missing or empty; nothing changes |
| `Provider.ThemeProvider.ApplyThemeVariables` | src/App.js:186-204 | the stylesheet now holds the theme's variables, and for a theme of the table its text reads back as the palette |
| `Provider.ThemeProvider.StartTransition` | src/App.js:143-153 | the flag is raised, `--transition-duration` set, and the newest timer replaces the pending one |
| `Provider.ThemeProvider.PersistTheme` | src/App.js:155-162 | the base theme is written to the cookie, `localStorage` and, when logged in, the DB |
| `Provider.ThemeProvider.PaintTheme` | src/App.js:164-167 | the root class becomes `theme-<current>` and the stylesheet the current theme's |
| `Provider.ThemeProvider.ApplyThemeEffect` | src/App.js:142-170 | the apply effect in place gives `Engine.ApplyThemeEffect` of the old state |
| `Provider.ThemeProvider.PersistAutoThemeEffect` | src/App.js:172-174 | `autoTheme.toString()` is written to the cookie and `localStorage` |
| `Provider.ThemeProvider.Commit` | src/App.js:78-179 | one commit in place gives `Engine.Commit` of the old state |
| `Provider.ThemeProvider.Render` | src/App.js:78-179 | the renders in place give `Engine.Render` of the old state |
| `Provider.ThemeProvider.ApplySystemTheme` | src/App.js:181-184 | the base theme becomes `dark` iff the system prefers dark, never `highContrast` |
| `Provider.ThemeProvider.ChangeTheme` | src/App.js:206-209 | the new state is `Engine.ChangeTheme` of the old, with base `newTheme` and auto off |
| `Provider.ThemeProvider.ToggleAutoTheme` | src/App.js:211-213 | the new state is `Engine.ToggleAutoTheme` of the old, with the auto flag flipped |
| `Provider.ThemeProvider.NavigateToRoute` | src/App.js:215-217 | the new state is `Engine.NavigateToRoute` of the old; the route changes, and the base theme and auto flag are kept |
| `Provider.ThemeProvider.OnSystemThemeChange` | src/App.js:129-134 | the new state is `Engine.SystemThemeChanged` of the old |
| `Provider.ThemeProvider.OnUserThemeLoaded` | src/App.js:101-106 | the new state is `Engine.UserThemeLoaded` of the old |
| `Provider.ThemeProvider.OnTimer` | src/App.js:150-153 | the new state is `Engine.TimerFired` of the old |
| `Provider.ThemeProvider.ImportTheme` | src/App.js:247-261 | the new state is `Engine.ImportTheme` of the old, and the method reports a log exactly when the handler throws: unparsable text or the document `null` |
| `Provider.ThemeProvider.ApplyImport` | src/App.js:252-255 | the accepted import's updates and the renders they cause |
| `Provider.ThemeProvider.ExportTheme` | src/App.js:231-236 | the payload holds the base theme, the auto flag and the timestamp, and nothing changes |
| `Provider.ThemeProvider.Login` | src/App.js:495-501 | the new state is `Engine.Login` of the old |
| `Provider.ThemeProvider.Logout` | src/App.js:503-506 | the new state is `Engine.Logout` of the old |

## Left out

- The markup and presentation components (`ThemeSelector`, `ThemeImportExport`,
  `RouteNavigation`, `DemoContent`, `App`, the inline styles): they are UI only.
- `CLSMonitor` (`src/App.js:677-783`): a `PerformanceObserver` callback. It works on
  floating-point sums and thresholds.
- Subscribing and unsubscribing the `matchMedia` listener. The query results are inputs,
  and a notification is the event `SystemThemeChanged`.
- Real timers: a timer is a token, and firing one is the event `TimerFired`.
- The effect cleanup on unmount, and React's StrictMode double invocation.
- `crypto.getRandomValues` and the `Math.random` fallback of `generateNonce`
  (`src/App.js:67-71`). The bytes are a parameter; only their hex encoding is modelled.
- `Provider.ThemeProvider.constructor`: takes a byte sequence of any length, where the
  source draws exactly 16 bytes. The length of the nonce text follows from `Nonce.NonceHexShape`;
  the constructor itself does not state it.
- The `<style>` element creation and its `nonce` attribute (`src/App.js:191-197`). The
  page records which theme the stylesheet was written for, and `Engine.StyleSheet`
  gives its text.
- The React error that follows when `applyThemeVariables` throws for a name without a
  palette. The model keeps going, with no stylesheet text (`StyleSheet` is `None`).
- `Blob`, `URL.createObjectURL`, the anchor click and the `FileReader`. An import is
  given as an already-parsed record, as the document `null`, or as a file that
  `JSON.parse` rejects. Other documents on which the handler would throw are not
  modelled; a parsed record never throws here.
- The timing of the DB load (`src/App.js:101-106`). The `Provider` class and
  `Engine.UserThemeLoaded` treat its result as a later event, after the mount has
  settled, as a slower store would deliver it. The `localStorage` DB of the source
  resolves in a microtask, before the mount's re-render; that timing is given by
  `Engine.MountWithLoadedTheme`, but the class does not follow it. The drift of
  `Engine.UserThemeLoadedDrift` is a consequence of the later-event choice.
- `JSON.parse` of the DB text. The `userThemesDB` map is kept as its own map in
  `Stores`, not as JSON text under a `localStorage` key.
- Non-string values in an imported file or in the DB. For `autoTheme`, a missing flag
  is `false` and any other value is a boolean.
- Routes and DB keys that name `Object.prototype` properties. The lookups treat them
  as absent.
- `Date`, `toUTCString` and `toISOString`. The cookie expiry and the export timestamp
  are opaque strings.
- Cookie attributes (`expires`, `path`, `SameSite`), cookie expiry, and the browser's
  trimming of whitespace around names and values. The jar keeps one cookie per name in
  creation order.
- `UriComponent.Encode`: covers the ASCII range only. A non-ASCII character is kept
  unencoded instead of being written as UTF-8 percent escapes, and the `URIError` of an
  unpaired surrogate is not modelled.
- `UriComponent.Decode`: passes malformed escapes through instead of throwing
  `URIError`. It decodes only escapes that name ASCII codes.
