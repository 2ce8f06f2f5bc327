/** The theme engine of `ThemeProvider` as a state machine over values.
 *
 *  React's semantics are made explicit. State setters called during an event or an
 *  effect are queued and take effect together at the next render. After a render, an
 *  effect runs when one of its dependencies differs from the previous render's (on
 *  mount, every effect runs). Renders repeat until nothing changes; `FlushStable`
 *  shows that three commits always reach that point. The three effects that run after
 *  mount are:
 *    - the route-override effect, deps [currentRoute, baseTheme];
 *    - the apply/persist effect, deps [currentTheme, baseTheme, userId];
 *    - the autoTheme effect, deps [autoTheme].
 *  Media queries are the inputs `Env.prefersDark` and `Env.prefersReducedMotion`.
 *  The timer is a token: only the pending token can end the transition.
 */
module Engine {
  import opened Wrappers
  import Strings
  import Cookies
  import Themes

  const ThemeKey := "theme"
  const AutoThemeKey := "autoTheme"
  const UserIdKey := "userId"
  const DefaultTheme := "light"
  const DefaultRoute := "/"
  const TransitionMs: nat := 500

  /** What the browser reports when an effect or handler runs. */
  datatype Env = Env(prefersDark: bool, prefersReducedMotion: bool, cookieExpires: string)

  datatype Timer = Timer(token: nat, delayMs: nat)

  /** The cookie jar, `localStorage`, and the `userThemesDB` map kept in `localStorage`. */
  datatype Stores = Stores(cookies: Cookies.Jar, localStorage: map<string, string>, userThemesDB: map<string, string>)

  /** What the provider writes into the page: the root class, `--transition-duration`,
      and the theme whose variables the `theme-vars` stylesheet was last written for
      (`None` before the first write). The stylesheet's text is `StyleSheet`. */
  datatype Document = Document(className: string, transitionDuration: string, styleTheme: Option<string>)

  /** The text of the `theme-vars` stylesheet; `None` when it was never written or when
      `applyThemeVariables` threw on a name without a palette. */
  function StyleSheet(doc: Document): Option<string> {
    if doc.styleTheme.Some? then Themes.ThemeStyle(doc.styleTheme.value) else None
  }

  datatype State = State(
    currentTheme: string,
    baseTheme: string,
    autoTheme: bool,
    isTransitioning: bool,
    userId: Option<string>,
    currentRoute: string,
    nonce: string,
    pendingTimer: Option<Timer>,
    nextToken: nat,
    pendingUserTheme: Option<string>,
    stores: Stores,
    doc: Document)

  /** The values the effects depend on. */
  datatype Deps = Deps(currentRoute: string, baseTheme: string, currentTheme: string, userId: Option<string>, autoTheme: bool)

  function DepsOf(s: State): Deps {
    Deps(s.currentRoute, s.baseTheme, s.currentTheme, s.userId, s.autoTheme)
  }

  /** `b.toString()`. */
  function BoolText(b: bool): string {
    if b then "true" else "false"
  }

  /** JavaScript truthiness of a string or `null`. */
  predicate Truthy(v: Option<string>) {
    v.Some? && v.value != ""
  }

  /** `localStorage.getItem(key)`. */
  function GetItem(m: map<string, string>, key: string): Option<string> {
    if key in m then Some(m[key]) else None
  }

  // ---------------------------------------------------------------------------
  // Stores
  // ---------------------------------------------------------------------------

  /** `setCookie(name, value, 365)`. */
  function SetCookie(st: Stores, name: string, value: string, env: Env): Stores {
    st.(cookies := Cookies.WriteCookie(st.cookies, Cookies.SetCookieText(name, value, env.cookieExpires)))
  }

  /** `saveUserThemeToDB(userId, theme)`. */
  function SaveUserThemeToDB(st: Stores, userId: string, theme: string): Stores {
    st.(userThemesDB := st.userThemesDB[userId := theme])
  }

  /** `loadUserThemeFromDB(userId)`: the stored theme, `null` when absent or empty. */
  function LoadUserThemeFromDB(st: Stores, userId: string): (r: Option<string>)
    ensures Truthy(r) <==> r.Some?
    ensures r.Some? <==> userId in st.userThemesDB && st.userThemesDB[userId] != ""
    ensures r.Some? ==> r.value == st.userThemesDB[userId]
  {
    if userId in st.userThemesDB && st.userThemesDB[userId] != "" then Some(st.userThemesDB[userId]) else None
  }

  /** The theme persistence of the apply effect: cookie, `localStorage`, and the DB when logged in. */
  function PersistTheme(st: Stores, baseTheme: string, userId: Option<string>, env: Env): Stores {
    var st1 := SetCookie(st, ThemeKey, baseTheme, env);
    var st2 := st1.(localStorage := st1.localStorage[ThemeKey := baseTheme]);
    if Truthy(userId) then SaveUserThemeToDB(st2, userId.value, baseTheme) else st2
  }

  /** The persistence of the autoTheme effect. */
  function PersistAutoTheme(st: Stores, autoTheme: bool, env: Env): Stores {
    var st1 := SetCookie(st, AutoThemeKey, BoolText(autoTheme), env);
    st1.(localStorage := st1.localStorage[AutoThemeKey := BoolText(autoTheme)])
  }

  // ---------------------------------------------------------------------------
  // Effects and rendering
  // ---------------------------------------------------------------------------

  function TransitionDelay(env: Env): nat {
    if env.prefersReducedMotion then 0 else TransitionMs
  }

  function TransitionDuration(env: Env): string {
    if env.prefersReducedMotion then "0ms" else "500ms"
  }

  /** The apply effect, run with the rendered values of `s`: start the transition
      (the superseded timer is cleared and a new one scheduled), persist the base
      theme, and paint the current theme. */
  function ApplyThemeEffect(s: State, env: Env): State {
    s.(isTransitioning := true,
       pendingTimer := Some(Timer(s.nextToken, TransitionDelay(env))),
       nextToken := s.nextToken + 1,
       stores := PersistTheme(s.stores, s.baseTheme, s.userId, env),
       doc := Document(Themes.MarkerPrefix + s.currentTheme, TransitionDuration(env), Some(s.currentTheme)))
  }

  /** `applySystemTheme()`: a queued base theme from the colour-scheme query. */
  function ApplySystemTheme(s: State, env: Env): State {
    s.(baseTheme := Themes.SystemTheme(env.prefersDark))
  }

  /** One commit after rendering `s` when the previous render had `prev`: the effects
      whose dependencies changed run in declaration order, reading the values of `s`;
      the state updates they queue are applied at the end. */
  function Commit(prev: Deps, s: State, env: Env): State {
    var routeRuns := prev.currentRoute != s.currentRoute || prev.baseTheme != s.baseTheme;
    var applyRuns := prev.currentTheme != s.currentTheme || prev.baseTheme != s.baseTheme || prev.userId != s.userId;
    var autoRuns := prev.autoTheme != s.autoTheme;
    var s1 := if applyRuns then ApplyThemeEffect(s, env) else s;
    var s2 := if autoRuns then s1.(stores := PersistAutoTheme(s1.stores, s.autoTheme, env)) else s1;
    s2.(currentTheme := if routeRuns then Themes.EffectiveTheme(s.currentRoute, s.baseTheme) else s.currentTheme,
        baseTheme := if autoRuns && s.autoTheme then ApplySystemTheme(s, env).baseTheme else s.baseTheme)
  }

  /** React re-rendering: `rounds` successive commits. */
  function Flush(prev: Deps, s: State, env: Env, rounds: nat): State
    decreases rounds
  {
    if rounds == 0 then s else Flush(DepsOf(s), Commit(prev, s, env), env, rounds - 1)
  }

  /** Everything that follows a batch of state updates, until the page is stable. */
  function Render(prev: Deps, s: State, env: Env): State {
    Flush(prev, s, env, 3)
  }

  // ---------------------------------------------------------------------------
  // Mount: initial state, the init effect, and the first commit
  // ---------------------------------------------------------------------------

  function InitialState(className: string, stores: Stores, nonce: string): State {
    State(DefaultTheme, DefaultTheme, false, false, None, DefaultRoute, nonce, None, 0, None,
          stores, Document(className, "", None))
  }

  /** The queued values the init effect leaves (after the route effect's queued `'light'`). */
  datatype InitUpdates = InitUpdates(
    baseTheme: string, currentTheme: string, autoTheme: bool, userId: Option<string>, pendingUserTheme: Option<string>)

  /** The theme found in the cookie, else in `localStorage`; unchecked against the theme table. */
  function StoredTheme(stores: Stores): Option<string> {
    var cookieTheme := Cookies.ReadCookie(stores.cookies, ThemeKey);
    if cookieTheme != "" then Some(cookieTheme)
    else
      var stored := GetItem(stores.localStorage, ThemeKey);
      if Truthy(stored) then stored else None
  }

  /** The server marker names a theme that passes the source's check. */
  predicate HasServerTheme(className: string) {
    Themes.ServerTheme(className).Some? && Themes.IsKnownTheme(Themes.ServerTheme(className).value)
  }

  /** The init effect: the server marker wins; otherwise the stored user id starts a
      DB load, the cookie or `localStorage` gives the theme, and an `autoTheme`
      cookie of 'true' enables auto mode and applies the system theme. */
  function InitEffect(className: string, stores: Stores, env: Env): InitUpdates {
    if HasServerTheme(className) then
      var serverTheme := Themes.ServerTheme(className).value;
      InitUpdates(serverTheme, serverTheme, false, None, None)
    else
      var storedUserId := GetItem(stores.localStorage, UserIdKey);
      var userId := if Truthy(storedUserId) then storedUserId else None;
      var pending := if Truthy(storedUserId) then LoadUserThemeFromDB(stores, storedUserId.value) else None;
      var theme := StoredTheme(stores).GetOr(DefaultTheme);
      var auto := Cookies.ReadCookie(stores.cookies, AutoThemeKey) == "true";
      InitUpdates(if auto then Themes.SystemTheme(env.prefersDark) else theme, theme, auto, userId, pending)
  }

  /** The mount commit from state `s0`, with the updates `init` the init effect queued:
      the apply and autoTheme effects run with the values of `s0`, then the queued
      updates land. */
  function MountCommitFrom(s0: State, init: InitUpdates, env: Env): State {
    var s1 := ApplyThemeEffect(s0, env);
    var s2 := s1.(stores := PersistAutoTheme(s1.stores, s0.autoTheme, env));
    s2.(currentTheme := init.currentTheme, baseTheme := init.baseTheme, autoTheme := init.autoTheme,
        userId := init.userId, pendingUserTheme := init.pendingUserTheme)
  }

  /** The mount commit: the init effect reads the stores before the other effects write them. */
  function MountCommit(className: string, stores: Stores, nonce: string, env: Env): State {
    MountCommitFrom(InitialState(className, stores, nonce), InitEffect(className, stores, env), env)
  }

  /** Mounting the provider on a page with root class `className`: the mount commit, then
      the renders its queued updates cause. */
  function Mount(className: string, stores: Stores, nonce: string, env: Env): State {
    Render(DepsOf(InitialState(className, stores, nonce)), MountCommit(className, stores, nonce, env), env)
  }

  // ---------------------------------------------------------------------------
  // Operations and events
  // ---------------------------------------------------------------------------

  /** `changeTheme(newTheme)`: manual choice; the argument is not validated. */
  function ChangeTheme(s: State, newTheme: string, env: Env): State {
    Render(DepsOf(s), s.(autoTheme := false, baseTheme := newTheme), env)
  }

  /** `toggleAutoTheme()`. */
  function ToggleAutoTheme(s: State, env: Env): State {
    Render(DepsOf(s), s.(autoTheme := !s.autoTheme), env)
  }

  /** `navigateToRoute(route)`. */
  function NavigateToRoute(s: State, route: string, env: Env): State {
    Render(DepsOf(s), s.(currentRoute := route), env)
  }

  /** The colour-scheme `change` listener registered at mount. Its `autoTheme` is the
      mount-time value `false`, so only the `autoTheme` cookie gates it. */
  function SystemThemeChanged(s: State, env: Env): State {
    if Cookies.ReadCookie(s.stores.cookies, AutoThemeKey) == "true" then
      Render(DepsOf(s), ApplySystemTheme(s, env), env)
    else s
  }

  /** The DB load started at mount resolves. */
  function UserThemeLoaded(s: State, env: Env): State {
    match s.pendingUserTheme
    case None => s
    case Some(t) => Render(DepsOf(s), s.(baseTheme := t, currentTheme := t, pendingUserTheme := None), env)
  }

  /** A transition timer fires; a cleared timer never does. */
  function TimerFired(s: State, token: nat): State {
    if s.pendingTimer.Some? && s.pendingTimer.value.token == token then
      s.(isTransitioning := false, pendingTimer := None)
    else s
  }

  /** The fields of an imported JSON file that the source reads; `None` is a missing or null field. */
  datatype ImportData = ImportData(currentTheme: Option<string>, autoTheme: Option<bool>)

  /** An import file after `JSON.parse`: a non-null value (a field it lacks is `None`);
      the document `null`, on which reading `data.currentTheme` throws; or text that does
      not parse. Both throwing cases end in the `catch`, which only logs. */
  datatype ImportFile = Parsed(data: ImportData) | NullDocument | Unparsable

  /** `data.currentTheme && themes[data.currentTheme]`. */
  predicate ImportAccepted(d: ImportData) {
    Truthy(d.currentTheme) && Themes.IsKnownTheme(d.currentTheme.value)
  }

  /** `importTheme(file)` once the file is read. */
  function ImportTheme(s: State, file: ImportFile, env: Env): State {
    match file
    case Unparsable => s
    case NullDocument => s
    case Parsed(d) =>
      if ImportAccepted(d) then
        Render(DepsOf(s), s.(baseTheme := d.currentTheme.value, autoTheme := d.autoTheme.GetOr(false)), env)
      else s
  }

  /** The `catch` reports (`console.error`) exactly the files on which the handler throws. */
  predicate ImportLogsError(file: ImportFile) {
    !file.Parsed?
  }

  /** The object `exportTheme` serializes. */
  datatype ExportPayload = ExportPayload(currentTheme: string, autoTheme: bool, timestamp: string)

  function ExportTheme(s: State, timestamp: string): ExportPayload {
    ExportPayload(s.baseTheme, s.autoTheme, timestamp)
  }

  /** What importing the exported file reads back. */
  function ExportedFile(p: ExportPayload): ImportFile {
    Parsed(ImportData(Some(p.currentTheme), Some(p.autoTheme)))
  }

  /** `handleLogin` of the login form. */
  function Login(s: State, input: string, env: Env): State {
    var id := Strings.Trim(input);
    if id != "" then
      Render(DepsOf(s), s.(userId := Some(id), stores := s.stores.(localStorage := s.stores.localStorage[UserIdKey := id])), env)
    else s
  }

  /** `handleLogout` of the login form. */
  function Logout(s: State, env: Env): State {
    Render(DepsOf(s), s.(userId := None, stores := s.stores.(localStorage := s.stores.localStorage - {UserIdKey})), env)
  }

  // ---------------------------------------------------------------------------
  // Invariants
  // ---------------------------------------------------------------------------

  /** The stores hold the given base theme and auto flag (and the DB entry of a logged-in user). */
  predicate StoresMirror(st: Stores, baseTheme: string, autoTheme: bool, userId: Option<string>) {
    && Cookies.ValidJar(st.cookies)
    && Cookies.ReadCookie(st.cookies, ThemeKey) == baseTheme
    && Cookies.ReadCookie(st.cookies, AutoThemeKey) == BoolText(autoTheme)
    && GetItem(st.localStorage, ThemeKey) == Some(baseTheme)
    && GetItem(st.localStorage, AutoThemeKey) == Some(BoolText(autoTheme))
    && (Truthy(userId) ==> GetItem(st.userThemesDB, userId.value) == Some(baseTheme))
  }

  /** The page shows the given theme. */
  predicate DocMirror(doc: Document, currentTheme: string) {
    doc.className == Themes.MarkerPrefix + currentTheme && doc.styleTheme == Some(currentTheme)
  }

  /** The transition flag is up exactly while a timer is pending, and that timer is the newest. */
  predicate TimerOk(s: State) {
    (s.isTransitioning <==> s.pendingTimer.Some?)
    && (s.pendingTimer.Some? ==> s.pendingTimer.value.token + 1 == s.nextToken)
  }

  /** Every store and the page agree with the state. */
  predicate Synced(s: State) {
    StoresMirror(s.stores, s.baseTheme, s.autoTheme, s.userId) && DocMirror(s.doc, s.currentTheme) && TimerOk(s)
  }

  /** The current theme is the base theme as overridden by the route. */
  predicate Consistent(s: State) {
    s.currentTheme == Themes.EffectiveTheme(s.currentRoute, s.baseTheme)
  }

  // ---------------------------------------------------------------------------
  // Lemmas: commits and renders
  // ---------------------------------------------------------------------------

  /** Nothing runs when no dependency changed. */
  lemma CommitUnchanged(s: State, env: Env)
    ensures Commit(DepsOf(s), s, env) == s
  {
  }

  lemma FlushUnchanged(s: State, env: Env, rounds: nat)
    ensures Flush(DepsOf(s), s, env, rounds) == s
    decreases rounds
  {
    if rounds > 0 {
      CommitUnchanged(s, env);
      FlushUnchanged(s, env, rounds - 1);
    }
  }

  /** What one commit changes and keeps. */
  lemma CommitFrame(prev: Deps, s: State, env: Env)
    ensures var c := Commit(prev, s, env);
      && c.autoTheme == s.autoTheme && c.currentRoute == s.currentRoute && c.userId == s.userId
      && c.nonce == s.nonce && c.pendingUserTheme == s.pendingUserTheme
      && c.baseTheme == (if prev.autoTheme != s.autoTheme && s.autoTheme then Themes.SystemTheme(env.prefersDark) else s.baseTheme)
      && c.currentTheme == (if prev.currentRoute != s.currentRoute || prev.baseTheme != s.baseTheme
                            then Themes.EffectiveTheme(s.currentRoute, s.baseTheme) else s.currentTheme)
  {
  }

  /** The three commits of a render, spelled out; the third changes no dependency. */
  lemma RenderSteps(prev: Deps, s: State, env: Env)
    ensures var c1 := Commit(prev, s, env);
      var c2 := Commit(DepsOf(s), c1, env);
      var c3 := Commit(DepsOf(c1), c2, env);
      && Render(prev, s, env) == c3
      && c2.baseTheme == c1.baseTheme && c3.baseTheme == c1.baseTheme
      && DepsOf(c3) == DepsOf(c2)
  {
    var c1 := Commit(prev, s, env);
    var c2 := Commit(DepsOf(s), c1, env);
    var c3 := Commit(DepsOf(c1), c2, env);
    CommitFrame(prev, s, env);
    CommitFrame(DepsOf(s), c1, env);
    CommitFrame(DepsOf(c1), c2, env);
    assert Flush(DepsOf(c2), c3, env, 0) == c3;
  }

  /** Three commits suffice: rendering longer changes nothing more. */
  lemma FlushStable(prev: Deps, s: State, env: Env, rounds: nat)
    requires rounds >= 3
    ensures Flush(prev, s, env, rounds) == Render(prev, s, env)
  {
    var c1 := Commit(prev, s, env);
    var c2 := Commit(DepsOf(s), c1, env);
    var c3 := Commit(DepsOf(c1), c2, env);
    RenderSteps(prev, s, env);
    assert Flush(prev, s, env, rounds) == Flush(DepsOf(s), c1, env, rounds - 1);
    assert Flush(DepsOf(s), c1, env, rounds - 1) == Flush(DepsOf(c1), c2, env, rounds - 2);
    assert Flush(DepsOf(c1), c2, env, rounds - 2) == Flush(DepsOf(c2), c3, env, rounds - 3);
    FlushUnchanged(c3, env, rounds - 3);
  }

  /** A render never changes the route, the auto flag, the user or the pending DB load; it
      changes the base theme only when auto mode was just switched on. */
  lemma RenderFrame(prev: Deps, s: State, env: Env)
    ensures var r := Render(prev, s, env);
      && r.autoTheme == s.autoTheme && r.currentRoute == s.currentRoute && r.userId == s.userId
      && r.nonce == s.nonce && r.pendingUserTheme == s.pendingUserTheme
      && r.baseTheme == (if prev.autoTheme != s.autoTheme && s.autoTheme then Themes.SystemTheme(env.prefersDark) else s.baseTheme)
  {
    var c1 := Commit(prev, s, env);
    var c2 := Commit(DepsOf(s), c1, env);
    RenderSteps(prev, s, env);
    CommitFrame(prev, s, env);
    CommitFrame(DepsOf(s), c1, env);
    CommitFrame(DepsOf(c1), c2, env);
  }

  /** A render leaves the current theme derived from the route whenever the update changed
      the route or the base theme, or the current theme was derived already. */
  lemma RenderConsistent(prev: Deps, s: State, env: Env)
    requires prev.currentRoute != s.currentRoute || prev.baseTheme != s.baseTheme || Consistent(s)
    ensures Consistent(Render(prev, s, env))
  {
    var c1 := Commit(prev, s, env);
    var c2 := Commit(DepsOf(s), c1, env);
    RenderSteps(prev, s, env);
    CommitFrame(prev, s, env);
    CommitFrame(DepsOf(s), c1, env);
    CommitFrame(DepsOf(c1), c2, env);
  }

  lemma PersistThemeMirror(st: Stores, base: string, auto: bool, userId: Option<string>, env: Env)
    requires Cookies.ValidJar(st.cookies)
    requires Cookies.ReadCookie(st.cookies, AutoThemeKey) == BoolText(auto)
    requires GetItem(st.localStorage, AutoThemeKey) == Some(BoolText(auto))
    ensures StoresMirror(PersistTheme(st, base, userId, env), base, auto, userId)
  {
    Cookies.ReadAfterSetCookie(st.cookies, ThemeKey, base, env.cookieExpires);
  }

  lemma PersistAutoMirror(st: Stores, base: string, auto: bool, userId: Option<string>, env: Env)
    requires Cookies.ValidJar(st.cookies)
    requires Cookies.ReadCookie(st.cookies, ThemeKey) == base
    requires GetItem(st.localStorage, ThemeKey) == Some(base)
    requires Truthy(userId) ==> GetItem(st.userThemesDB, userId.value) == Some(base)
    ensures StoresMirror(PersistAutoTheme(st, auto, env), base, auto, userId)
  {
    Cookies.ReadAfterSetCookie(st.cookies, AutoThemeKey, BoolText(auto), env.cookieExpires);
  }

  /** A commit brings the stores and the page up to the values it rendered. */
  lemma CommitSynced(prev: Deps, s: State, env: Env)
    requires StoresMirror(s.stores, prev.baseTheme, prev.autoTheme, prev.userId)
    requires DocMirror(s.doc, prev.currentTheme) && TimerOk(s)
    ensures var c := Commit(prev, s, env);
      StoresMirror(c.stores, s.baseTheme, s.autoTheme, s.userId) && DocMirror(c.doc, s.currentTheme) && TimerOk(c)
  {
    var applyRuns := prev.currentTheme != s.currentTheme || prev.baseTheme != s.baseTheme || prev.userId != s.userId;
    var s1 := if applyRuns then ApplyThemeEffect(s, env) else s;
    if applyRuns {
      PersistThemeMirror(s.stores, s.baseTheme, prev.autoTheme, s.userId, env);
    }
    assert StoresMirror(s1.stores, s.baseTheme, prev.autoTheme, s.userId);
    if prev.autoTheme != s.autoTheme {
      PersistAutoMirror(s1.stores, s.baseTheme, s.autoTheme, s.userId, env);
    }
  }

  /** After a render every store holds the base theme and auto flag, and the page shows the
      current theme, provided the stores held the previous render's values. */
  lemma RenderSynced(prev: Deps, s: State, env: Env)
    requires StoresMirror(s.stores, prev.baseTheme, prev.autoTheme, prev.userId)
    requires DocMirror(s.doc, prev.currentTheme) && TimerOk(s)
    ensures Synced(Render(prev, s, env))
  {
    var c1 := Commit(prev, s, env);
    var c2 := Commit(DepsOf(s), c1, env);
    RenderSteps(prev, s, env);
    CommitSynced(prev, s, env);
    CommitSynced(DepsOf(s), c1, env);
    CommitSynced(DepsOf(c1), c2, env);
    CommitFrame(DepsOf(c1), c2, env);
  }

  /** The stores change only where the provider writes: the `theme` and `autoTheme` entries
      of `localStorage` and of the cookie jar, and the DB entry of the logged-in user. */
  ghost predicate StoresTouchOnly(before: Stores, after: Stores, userId: Option<string>) {
    && after.localStorage - {ThemeKey, AutoThemeKey} == before.localStorage - {ThemeKey, AutoThemeKey}
    && (if Truthy(userId) then after.userThemesDB - {userId.value} == before.userThemesDB - {userId.value}
        else after.userThemesDB == before.userThemesDB)
    && (Cookies.ValidJar(before.cookies) ==>
          && Cookies.ValidJar(after.cookies)
          && forall m :: m != ThemeKey && m != AutoThemeKey && m != "" ==>
               Cookies.ReadCookie(after.cookies, m) == Cookies.ReadCookie(before.cookies, m))
  }

  lemma SetCookieFrame(st: Stores, name: string, value: string, env: Env)
    requires name == ThemeKey || name == AutoThemeKey
    ensures var st1 := SetCookie(st, name, value, env);
      Cookies.ValidJar(st.cookies) ==>
        && Cookies.ValidJar(st1.cookies)
        && forall m :: m != ThemeKey && m != AutoThemeKey && m != "" ==>
             Cookies.ReadCookie(st1.cookies, m) == Cookies.ReadCookie(st.cookies, m)
  {
    if Cookies.ValidJar(st.cookies) {
      Cookies.ReadAfterSetCookie(st.cookies, name, value, env.cookieExpires);
    }
  }

  lemma StoresTouchOnlyTrans(a: Stores, b: Stores, c: Stores, userId: Option<string>)
    requires StoresTouchOnly(a, b, userId) && StoresTouchOnly(b, c, userId)
    ensures StoresTouchOnly(a, c, userId)
  {
  }

  lemma PersistThemeFrame(st: Stores, baseTheme: string, userId: Option<string>, env: Env)
    ensures StoresTouchOnly(st, PersistTheme(st, baseTheme, userId, env), userId)
  {
    SetCookieFrame(st, ThemeKey, baseTheme, env);
    var st2 := PersistTheme(st, baseTheme, userId, env);
    assert st2.localStorage - {ThemeKey, AutoThemeKey} == st.localStorage - {ThemeKey, AutoThemeKey};
    if Truthy(userId) {
      assert st2.userThemesDB - {userId.value} == st.userThemesDB - {userId.value};
    }
  }

  lemma PersistAutoFrame(st: Stores, autoTheme: bool, userId: Option<string>, env: Env)
    ensures StoresTouchOnly(st, PersistAutoTheme(st, autoTheme, env), userId)
  {
    SetCookieFrame(st, AutoThemeKey, BoolText(autoTheme), env);
    var st1 := PersistAutoTheme(st, autoTheme, env);
    assert st1.localStorage - {ThemeKey, AutoThemeKey} == st.localStorage - {ThemeKey, AutoThemeKey};
  }

  lemma CommitStoreFrame(prev: Deps, s: State, env: Env)
    ensures StoresTouchOnly(s.stores, Commit(prev, s, env).stores, s.userId)
  {
    var applyRuns := prev.currentTheme != s.currentTheme || prev.baseTheme != s.baseTheme || prev.userId != s.userId;
    var s1 := if applyRuns then ApplyThemeEffect(s, env) else s;
    PersistThemeFrame(s.stores, s.baseTheme, s.userId, env);
    assert StoresTouchOnly(s.stores, s1.stores, s.userId);
    PersistAutoFrame(s1.stores, s.autoTheme, s.userId, env);
    var s2 := if prev.autoTheme != s.autoTheme then s1.(stores := PersistAutoTheme(s1.stores, s.autoTheme, env)) else s1;
    assert StoresTouchOnly(s1.stores, s2.stores, s.userId);
    StoresTouchOnlyTrans(s.stores, s1.stores, s2.stores, s.userId);
  }

  /** A render writes nothing but the provider's own entries; without a logged-in user
      the DB is not written at all. */
  lemma RenderStoreFrame(prev: Deps, s: State, env: Env)
    ensures StoresTouchOnly(s.stores, Render(prev, s, env).stores, s.userId)
  {
    var c1 := Commit(prev, s, env);
    var c2 := Commit(DepsOf(s), c1, env);
    RenderSteps(prev, s, env);
    CommitFrame(prev, s, env);
    CommitFrame(DepsOf(s), c1, env);
    CommitStoreFrame(prev, s, env);
    CommitStoreFrame(DepsOf(s), c1, env);
    CommitStoreFrame(DepsOf(c1), c2, env);
    StoresTouchOnlyTrans(s.stores, c1.stores, c2.stores, s.userId);
    StoresTouchOnlyTrans(s.stores, c2.stores, Render(prev, s, env).stores, s.userId);
  }

  lemma CommitTimer(prev: Deps, s: State, env: Env)
    requires TimerOk(s)
    ensures TimerOk(Commit(prev, s, env))
    ensures var c := Commit(prev, s, env);
      if prev.currentTheme != s.currentTheme || prev.baseTheme != s.baseTheme || prev.userId != s.userId then
        && c.nextToken == s.nextToken + 1 && c.isTransitioning
        && c.pendingTimer == Some(Timer(s.nextToken, TransitionDelay(env)))
        && c.doc.transitionDuration == TransitionDuration(env)
      else
        c.nextToken == s.nextToken && c.isTransitioning == s.isTransitioning && c.pendingTimer == s.pendingTimer
  {
  }

  /** Every change of the current theme, base theme or user starts a transition with the
      delay the motion preference asks for, and a timer scheduled before it can no longer
      end the transition. */
  lemma RenderTransition(prev: Deps, s: State, env: Env)
    requires TimerOk(s)
    ensures var r := Render(prev, s, env);
      && TimerOk(r) && r.nextToken >= s.nextToken
      && (prev.currentTheme != s.currentTheme || prev.baseTheme != s.baseTheme || prev.userId != s.userId ==>
            r.nextToken > s.nextToken)
      && (r.nextToken > s.nextToken ==>
            && r.isTransitioning && r.pendingTimer == Some(Timer(r.nextToken - 1, TransitionDelay(env)))
            && r.doc.transitionDuration == TransitionDuration(env)
            && forall t: nat :: t < s.nextToken ==> TimerFired(r, t) == r)
      && (r.nextToken == s.nextToken ==>
            r.isTransitioning == s.isTransitioning && r.pendingTimer == s.pendingTimer)
  {
    var c1 := Commit(prev, s, env);
    var c2 := Commit(DepsOf(s), c1, env);
    RenderSteps(prev, s, env);
    CommitTimer(prev, s, env);
    CommitTimer(DepsOf(s), c1, env);
    CommitTimer(DepsOf(c1), c2, env);
  }

  // ---------------------------------------------------------------------------
  // Lemmas: mount
  // ---------------------------------------------------------------------------

  /** The current theme after a render that does not switch the base theme to the system's. */
  lemma RenderCurrent(prev: Deps, s: State, env: Env)
    requires prev.autoTheme == s.autoTheme || !s.autoTheme || Themes.SystemTheme(env.prefersDark) == s.baseTheme
    ensures Render(prev, s, env).currentTheme ==
      if prev.currentRoute != s.currentRoute || prev.baseTheme != s.baseTheme
      then Themes.EffectiveTheme(s.currentRoute, s.baseTheme) else s.currentTheme
  {
    var c1 := Commit(prev, s, env);
    var c2 := Commit(DepsOf(s), c1, env);
    RenderSteps(prev, s, env);
    CommitFrame(prev, s, env);
    CommitFrame(DepsOf(s), c1, env);
    CommitFrame(DepsOf(c1), c2, env);
  }

  lemma MountCommitFields(className: string, stores: Stores, nonce: string, env: Env)
    ensures var init := InitEffect(className, stores, env);
      var s3 := MountCommit(className, stores, nonce, env);
      && s3.baseTheme == init.baseTheme && s3.currentTheme == init.currentTheme && s3.autoTheme == init.autoTheme
      && s3.userId == init.userId && s3.pendingUserTheme == init.pendingUserTheme
      && s3.currentRoute == DefaultRoute && s3.nonce == nonce
      && (init.autoTheme ==> init.baseTheme == Themes.SystemTheme(env.prefersDark))
  {
  }

  /** The state a mount settles in, in terms of what the init effect read. */
  lemma MountOutcome(className: string, stores: Stores, nonce: string, env: Env)
    ensures var init := InitEffect(className, stores, env);
      var r := Mount(className, stores, nonce, env);
      && r.baseTheme == init.baseTheme && r.autoTheme == init.autoTheme && r.userId == init.userId
      && r.pendingUserTheme == init.pendingUserTheme && r.currentRoute == DefaultRoute && r.nonce == nonce
      && r.currentTheme == (if init.baseTheme != DefaultTheme then init.baseTheme else init.currentTheme)
  {
    var s0 := InitialState(className, stores, nonce);
    var s3 := MountCommit(className, stores, nonce, env);
    assert Mount(className, stores, nonce, env) == Render(DepsOf(s0), s3, env);
    MountCommitFields(className, stores, nonce, env);
    MountRender(s0, s3, env);
  }

  /** The renders after the mount commit: the base theme stays (auto mode already applied
      the system theme), and the route effect shows the base theme at '/' if it moved. */
  lemma MountRender(s0: State, s3: State, env: Env)
    requires s0.currentRoute == DefaultRoute && s0.baseTheme == DefaultTheme && !s0.autoTheme
    requires s3.currentRoute == DefaultRoute
    requires s3.autoTheme ==> s3.baseTheme == Themes.SystemTheme(env.prefersDark)
    ensures var r := Render(DepsOf(s0), s3, env);
      && r.baseTheme == s3.baseTheme && r.autoTheme == s3.autoTheme && r.userId == s3.userId
      && r.pendingUserTheme == s3.pendingUserTheme && r.currentRoute == DefaultRoute && r.nonce == s3.nonce
      && r.currentTheme == (if s3.baseTheme != DefaultTheme then s3.baseTheme else s3.currentTheme)
  {
    RenderFrame(DepsOf(s0), s3, env);
    RenderCurrent(DepsOf(s0), s3, env);
  }

  /** After mount every store holds what the state says, whatever the stores held before. */
  lemma MountSynced(className: string, stores: Stores, nonce: string, env: Env)
    requires Cookies.ValidJar(stores.cookies)
    ensures Synced(Mount(className, stores, nonce, env))
  {
    var s0 := InitialState(className, stores, nonce);
    var s3 := MountCommit(className, stores, nonce, env);
    MountStoresMirror(stores, env);
    assert s3.stores == PersistAutoTheme(PersistTheme(stores, DefaultTheme, None, env), false, env);
    RenderSynced(DepsOf(s0), s3, env);
  }

  lemma MountStoresMirror(stores: Stores, env: Env)
    requires Cookies.ValidJar(stores.cookies)
    ensures StoresMirror(PersistAutoTheme(PersistTheme(stores, DefaultTheme, None, env), false, env), DefaultTheme, false, None)
  {
    Cookies.ReadAfterSetCookie(stores.cookies, ThemeKey, DefaultTheme, env.cookieExpires);
    PersistAutoMirror(PersistTheme(stores, DefaultTheme, None, env), DefaultTheme, false, None, env);
  }

  /** A server marker naming a known theme decides the theme alone: auto mode stays off, no
      user is restored and no store is consulted. */
  lemma MountServerMarker(className: string, stores: Stores, other: Stores, nonce: string, env: Env)
    requires HasServerTheme(className)
    ensures var m := Themes.ServerTheme(className).value;
      var r := Mount(className, stores, nonce, env);
      var q := Mount(className, other, nonce, env);
      && r.baseTheme == m && r.currentTheme == m && !r.autoTheme && r.userId.None? && r.pendingUserTheme.None?
      && DepsOf(q) == DepsOf(r)
  {
    MountOutcome(className, stores, nonce, env);
    MountOutcome(className, other, nonce, env);
  }

  /** A marker that names no known theme is the same as no marker. */
  lemma MountUnknownMarker(className: string, stores: Stores, nonce: string, env: Env)
    requires !HasServerTheme(className)
    ensures Mount(className, stores, nonce, env) == Mount("", stores, nonce, env)
  {
    assert Themes.ServerTheme("").None?;
  }

  /** Without a valid marker: the unvalidated cookie theme, else the `localStorage` theme,
      else 'light'; an `autoTheme` cookie of 'true' turns auto mode on with the system
      theme as base; a stored user id is restored and its DB theme is loaded. */
  lemma MountFallback(className: string, stores: Stores, nonce: string, env: Env)
    requires !HasServerTheme(className)
    ensures var r := Mount(className, stores, nonce, env);
      var cookieTheme := Cookies.ReadCookie(stores.cookies, ThemeKey);
      var stored := GetItem(stores.localStorage, ThemeKey);
      var theme := if cookieTheme != "" then cookieTheme else if Truthy(stored) then stored.value else DefaultTheme;
      var auto := Cookies.ReadCookie(stores.cookies, AutoThemeKey) == "true";
      var storedUserId := GetItem(stores.localStorage, UserIdKey);
      && r.autoTheme == auto
      && r.baseTheme == (if auto then Themes.SystemTheme(env.prefersDark) else theme)
      && (!auto ==> r.currentTheme == theme)
      && (auto ==> r.currentTheme == if env.prefersDark then "dark" else theme)
      && (Truthy(storedUserId) ==>
            r.userId == storedUserId && r.pendingUserTheme == LoadUserThemeFromDB(stores, storedUserId.value))
      && (!Truthy(storedUserId) ==> r.userId.None? && r.pendingUserTheme.None?)
  {
    MountOutcome(className, stores, nonce, env);
  }

  /** The DB theme found at mount lands later and replaces the base and current theme. */
  lemma UserThemeLoadedApplies(s: State, env: Env)
    requires s.pendingUserTheme.Some?
    ensures var r := UserThemeLoaded(s, env);
      && r.baseTheme == s.pendingUserTheme.value && r.pendingUserTheme.None?
      && r.autoTheme == s.autoTheme && r.userId == s.userId && r.currentRoute == s.currentRoute
      && (s.pendingUserTheme.value != s.baseTheme ==> Consistent(r))
  {
    var t := s.pendingUserTheme.value;
    var s1 := s.(baseTheme := t, currentTheme := t, pendingUserTheme := None);
    RenderFrame(DepsOf(s), s1, env);
    if t != s.baseTheme {
      RenderConsistent(DepsOf(s), s1, env);
    }
  }

  /** A page painted in a theme of the table carries it as its class, so the next mount on
      that page takes it from the marker. */
  lemma RemountKeepsPaintedTheme(s: State, stores: Stores, nonce: string, env: Env)
    requires Synced(s) && s.currentTheme in Themes.Themes
    ensures var r := Mount(s.doc.className, stores, nonce, env);
      r.baseTheme == s.currentTheme && r.currentTheme == s.currentTheme && !r.autoTheme
  {
    Themes.ThemeNamesAreWords(s.currentTheme);
    Themes.ServerThemeOfClass(s.currentTheme);
    MountOutcome(s.doc.className, stores, nonce, env);
  }

  // ---------------------------------------------------------------------------
  // Lemmas: operations
  // ---------------------------------------------------------------------------

  /** `changeTheme(x)`: auto mode off, base theme `x` persisted everywhere, the route
      deciding what is shown, and a transition started when the base changed. */
  lemma ChangeThemeSpec(s: State, x: string, env: Env)
    requires TimerOk(s)
    ensures var r := ChangeTheme(s, x, env);
      && r.baseTheme == x && !r.autoTheme
      && r.currentRoute == s.currentRoute && r.userId == s.userId && r.pendingUserTheme == s.pendingUserTheme
      && (x != s.baseTheme || Consistent(s) ==> r.currentTheme == Themes.EffectiveTheme(s.currentRoute, x))
      && (x != s.baseTheme ==>
            r.isTransitioning && r.pendingTimer.Some? && r.pendingTimer.value.delayMs == TransitionDelay(env))
      && StoresTouchOnly(s.stores, r.stores, s.userId)
  {
    var s1 := s.(autoTheme := false, baseTheme := x);
    RenderFrame(DepsOf(s), s1, env);
    RenderTransition(DepsOf(s), s1, env);
    RenderStoreFrame(DepsOf(s), s1, env);
    if x != s.baseTheme || Consistent(s) {
      RenderConsistent(DepsOf(s), s1, env);
    }
  }

  /** Choosing the same theme again changes nothing. */
  lemma ChangeThemeIdempotent(s: State, x: string, env: Env)
    ensures ChangeTheme(ChangeTheme(s, x, env), x, env) == ChangeTheme(s, x, env)
  {
    var r := ChangeTheme(s, x, env);
    RenderFrame(DepsOf(s), s.(autoTheme := false, baseTheme := x), env);
    assert r.(autoTheme := false, baseTheme := x) == r;
    FlushUnchanged(r, env, 3);
  }

  /** `toggleAutoTheme()`: the flag flips; switching on applies the system theme (never high
      contrast); switching off keeps the base theme. */
  lemma ToggleAutoThemeSpec(s: State, env: Env)
    ensures var r := ToggleAutoTheme(s, env);
      && r.autoTheme == !s.autoTheme
      && (!s.autoTheme ==>
            && r.baseTheme == Themes.SystemTheme(env.prefersDark) && r.baseTheme != "highContrast"
            && (r.baseTheme == "dark" <==> env.prefersDark))
      && (s.autoTheme ==> r.baseTheme == s.baseTheme)
      && r.currentRoute == s.currentRoute && r.userId == s.userId
  {
    RenderFrame(DepsOf(s), s.(autoTheme := !s.autoTheme), env);
  }

  /** While the stores are in step, the cookie that gates the system-preference listener
      says exactly whether auto mode is on. */
  lemma SystemGateIsAutoMode(s: State)
    requires Synced(s)
    ensures Cookies.ReadCookie(s.stores.cookies, AutoThemeKey) == "true" <==> s.autoTheme
  {
  }

  /** A system-preference notification: in auto mode the base theme follows the system;
      otherwise nothing changes. */
  lemma SystemThemeChangedSpec(s: State, env: Env)
    requires Synced(s)
    ensures var r := SystemThemeChanged(s, env);
      && (s.autoTheme ==>
            && r.baseTheme == Themes.SystemTheme(env.prefersDark) && r.autoTheme
            && r.currentRoute == s.currentRoute && r.userId == s.userId)
      && (!s.autoTheme ==> r == s)
  {
    SystemGateIsAutoMode(s);
    if s.autoTheme {
      RenderFrame(DepsOf(s), ApplySystemTheme(s, env), env);
    }
  }

  /** `navigateToRoute(route)`: only the route changes among the preferences; the shown
      theme is the route's override or the base theme, so leaving an overridden route
      shows the base theme again. */
  lemma NavigateToRouteSpec(s: State, route: string, env: Env)
    ensures var r := NavigateToRoute(s, route, env);
      && r.currentRoute == route && r.baseTheme == s.baseTheme && r.autoTheme == s.autoTheme
      && r.userId == s.userId && r.pendingUserTheme == s.pendingUserTheme
      && (route != s.currentRoute || Consistent(s) ==> r.currentTheme == Themes.EffectiveTheme(route, s.baseTheme))
      && (route != s.currentRoute && route !in Themes.RouteThemeOverrides ==> r.currentTheme == s.baseTheme)
  {
    var s1 := s.(currentRoute := route);
    RenderFrame(DepsOf(s), s1, env);
    if route != s.currentRoute || Consistent(s) {
      RenderConsistent(DepsOf(s), s1, env);
    }
  }

  /** `importTheme`: a file that does not parse, the document `null`, or a file naming no
      theme the source accepts changes nothing; otherwise the base theme and auto flag are
      taken from it (missing auto flag: off), and auto mode being switched on applies the
      system theme. A rejected theme is not reported; a throwing file is. */
  lemma ImportThemeSpec(s: State, file: ImportFile, env: Env)
    ensures var r := ImportTheme(s, file, env);
      && (!file.Parsed? || !ImportAccepted(file.data) ==> r == s)
      && (file.Parsed? && ImportAccepted(file.data) ==>
            var auto := file.data.autoTheme.GetOr(false);
            && r.autoTheme == auto
            && r.baseTheme == (if auto && !s.autoTheme then Themes.SystemTheme(env.prefersDark) else file.data.currentTheme.value)
            && r.currentRoute == s.currentRoute && r.userId == s.userId)
      && (ImportLogsError(file) <==> file.Unparsable? || file.NullDocument?)
  {
    if file.Parsed? && ImportAccepted(file.data) {
      var d := file.data;
      RenderFrame(DepsOf(s), s.(baseTheme := d.currentTheme.value, autoTheme := d.autoTheme.GetOr(false)), env);
    }
  }

  /** The exported file records the base theme, not the route's override, and importing it
      back changes nothing in any state. */
  lemma ExportImportRoundTrip(s: State, timestamp: string, env: Env)
    ensures ExportTheme(s, timestamp).currentTheme == s.baseTheme
    ensures ExportTheme(s, timestamp).autoTheme == s.autoTheme
    ensures ImportTheme(s, ExportedFile(ExportTheme(s, timestamp)), env) == s
  {
    FlushUnchanged(s, env, 3);
  }

  /** Logging in with a blank id does nothing; otherwise the trimmed id is stored and the
      current base theme is saved for it. */
  lemma LoginSpec(s: State, input: string, env: Env)
    requires Synced(s)
    ensures var r := Login(s, input, env);
      var id := Strings.Trim(input);
      && (id == "" ==> r == s)
      && (id != "" ==> && r.userId == Some(id) && GetItem(r.stores.localStorage, UserIdKey) == Some(id)
                       && GetItem(r.stores.userThemesDB, id) == Some(s.baseTheme)
                       && r.baseTheme == s.baseTheme && r.autoTheme == s.autoTheme && Synced(r))
  {
    var id := Strings.Trim(input);
    if id != "" {
      var s1 := s.(userId := Some(id), stores := s.stores.(localStorage := s.stores.localStorage[UserIdKey := id]));
      RenderFrame(DepsOf(s), s1, env);
      RenderSynced(DepsOf(s), s1, env);
      RenderStoreFrame(DepsOf(s), s1, env);
      var r := Render(DepsOf(s), s1, env);
      assert UserIdKey in s1.stores.localStorage - {ThemeKey, AutoThemeKey};
      assert UserIdKey in r.stores.localStorage - {ThemeKey, AutoThemeKey};
    }
  }

  /** Logging out forgets the user; the DB keeps its entries. */
  lemma LogoutSpec(s: State, env: Env)
    ensures var r := Logout(s, env);
      && r.userId.None? && GetItem(r.stores.localStorage, UserIdKey).None?
      && r.stores.userThemesDB == s.stores.userThemesDB
      && r.baseTheme == s.baseTheme && r.autoTheme == s.autoTheme
  {
    var s1 := s.(userId := None, stores := s.stores.(localStorage := s.stores.localStorage - {UserIdKey}));
    RenderFrame(DepsOf(s), s1, env);
    RenderStoreFrame(DepsOf(s), s1, env);
    var r := Render(DepsOf(s), s1, env);
    assert UserIdKey !in s1.stores.localStorage - {ThemeKey, AutoThemeKey};
    assert UserIdKey !in r.stores.localStorage - {ThemeKey, AutoThemeKey};
  }

  /** Only the newest timer ends the transition; any other is ignored. */
  lemma TimerFiredSpec(s: State, token: nat)
    requires TimerOk(s)
    ensures var r := TimerFired(s, token);
      && TimerOk(r)
      && (token + 1 == s.nextToken && s.isTransitioning ==> !r.isTransitioning)
      && (token + 1 != s.nextToken ==> r == s)
  {
  }

  /** The apply effect does not depend on the auto flag: switching auto mode off, which
      keeps the base theme, starts no transition. */
  lemma ToggleOffKeepsTransition(s: State, env: Env)
    requires s.autoTheme && TimerOk(s)
    ensures var r := ToggleAutoTheme(s, env);
      r.nextToken == s.nextToken && r.isTransitioning == s.isTransitioning && r.pendingTimer == s.pendingTimer
  {
    var s1 := s.(autoTheme := false);
    var c1 := Commit(DepsOf(s), s1, env);
    var c2 := Commit(DepsOf(s1), c1, env);
    RenderSteps(DepsOf(s), s1, env);
    CommitFrame(DepsOf(s), s1, env);
    CommitTimer(DepsOf(s), s1, env);
    CommitFrame(DepsOf(s1), c1, env);
    CommitTimer(DepsOf(s1), c1, env);
    CommitTimer(DepsOf(c1), c2, env);
  }

  /** The apply effect does depend on the user: logging in as a new user starts a
      transition although no theme changes. */
  lemma LoginStartsTransition(s: State, input: string, env: Env)
    requires TimerOk(s) && Strings.Trim(input) != "" && s.userId != Some(Strings.Trim(input))
    ensures var r := Login(s, input, env);
      r.isTransitioning && r.pendingTimer.Some? && r.pendingTimer.value.delayMs == TransitionDelay(env)
  {
    var id := Strings.Trim(input);
    var s1 := s.(userId := Some(id), stores := s.stores.(localStorage := s.stores.localStorage[UserIdKey := id]));
    RenderTransition(DepsOf(s), s1, env);
  }

  /** The system-preference listener as written: it follows the `autoTheme` cookie, not
      the state's flag. */
  lemma SystemThemeChangedGate(s: State, env: Env)
    ensures var r := SystemThemeChanged(s, env);
      && (Cookies.ReadCookie(s.stores.cookies, AutoThemeKey) != "true" ==> r == s)
      && (Cookies.ReadCookie(s.stores.cookies, AutoThemeKey) == "true" ==>
            && r.baseTheme == Themes.SystemTheme(env.prefersDark) && r.autoTheme == s.autoTheme
            && r.currentRoute == s.currentRoute && r.userId == s.userId)
  {
    if Cookies.ReadCookie(s.stores.cookies, AutoThemeKey) == "true" {
      RenderFrame(DepsOf(s), ApplySystemTheme(s, env), env);
    }
  }

  // ---------------------------------------------------------------------------
  // Lemmas: invariants kept by every event
  // ---------------------------------------------------------------------------

  lemma ResyncAfter(s: State, s1: State, env: Env)
    requires Synced(s)
    requires StoresMirror(s1.stores, s.baseTheme, s.autoTheme, s.userId) && s1.doc == s.doc
    requires s1.isTransitioning == s.isTransitioning && s1.pendingTimer == s.pendingTimer && s1.nextToken == s.nextToken
    ensures Synced(Render(DepsOf(s), s1, env))
  {
    RenderSynced(DepsOf(s), s1, env);
  }

  // Once the stores are in step with the state, every operation and event keeps them so:
  // cookie and `localStorage` hold the base theme (never a route override) and the auto
  // flag's text, the logged-in user's DB entry holds the base theme, the page shows the
  // current theme, and the transition flag matches the newest timer. Every operation and
  // event except the late DB result also keeps the current theme derived from the route.

  lemma ChangeThemeKeepsInvariants(s: State, x: string, env: Env)
    ensures Synced(s) ==> Synced(ChangeTheme(s, x, env))
    ensures Consistent(s) ==> Consistent(ChangeTheme(s, x, env))
  {
    var s1 := s.(autoTheme := false, baseTheme := x);
    if Synced(s) { ResyncAfter(s, s1, env); }
    if Consistent(s) { RenderConsistent(DepsOf(s), s1, env); }
  }

  lemma ToggleAutoThemeKeepsInvariants(s: State, env: Env)
    ensures Synced(s) ==> Synced(ToggleAutoTheme(s, env))
    ensures Consistent(s) ==> Consistent(ToggleAutoTheme(s, env))
  {
    var s1 := s.(autoTheme := !s.autoTheme);
    if Synced(s) { ResyncAfter(s, s1, env); }
    if Consistent(s) { RenderConsistent(DepsOf(s), s1, env); }
  }

  lemma NavigateKeepsInvariants(s: State, route: string, env: Env)
    ensures Synced(s) ==> Synced(NavigateToRoute(s, route, env))
    ensures Consistent(s) ==> Consistent(NavigateToRoute(s, route, env))
  {
    var s1 := s.(currentRoute := route);
    if Synced(s) { ResyncAfter(s, s1, env); }
    if Consistent(s) { RenderConsistent(DepsOf(s), s1, env); }
  }

  lemma SystemThemeChangedKeepsInvariants(s: State, env: Env)
    ensures Synced(s) ==> Synced(SystemThemeChanged(s, env))
    ensures Consistent(s) ==> Consistent(SystemThemeChanged(s, env))
  {
    var s1 := ApplySystemTheme(s, env);
    if Synced(s) { ResyncAfter(s, s1, env); }
    if Consistent(s) { RenderConsistent(DepsOf(s), s1, env); }
  }

  /** The late DB result keeps the stores in step (its drift is `UserThemeLoadedDrift`). */
  lemma UserThemeLoadedKeepsSynced(s: State, env: Env)
    ensures Synced(s) ==> Synced(UserThemeLoaded(s, env))
  {
    if Synced(s) && s.pendingUserTheme.Some? {
      var t := s.pendingUserTheme.value;
      ResyncAfter(s, s.(baseTheme := t, currentTheme := t, pendingUserTheme := None), env);
    }
  }

  lemma ImportKeepsInvariants(s: State, file: ImportFile, env: Env)
    ensures Synced(s) ==> Synced(ImportTheme(s, file, env))
    ensures Consistent(s) ==> Consistent(ImportTheme(s, file, env))
  {
    if file.Parsed? && ImportAccepted(file.data) {
      var s1 := s.(baseTheme := file.data.currentTheme.value, autoTheme := file.data.autoTheme.GetOr(false));
      if Synced(s) { ResyncAfter(s, s1, env); }
      if Consistent(s) { RenderConsistent(DepsOf(s), s1, env); }
    }
  }

  lemma LoginKeepsInvariants(s: State, input: string, env: Env)
    ensures Synced(s) ==> Synced(Login(s, input, env))
    ensures Consistent(s) ==> Consistent(Login(s, input, env))
  {
    var id := Strings.Trim(input);
    if id != "" {
      var s1 := s.(userId := Some(id), stores := s.stores.(localStorage := s.stores.localStorage[UserIdKey := id]));
      if Synced(s) { ResyncAfter(s, s1, env); }
      if Consistent(s) { RenderConsistent(DepsOf(s), s1, env); }
    }
  }

  lemma LogoutKeepsInvariants(s: State, env: Env)
    ensures Synced(s) ==> Synced(Logout(s, env))
    ensures Consistent(s) ==> Consistent(Logout(s, env))
  {
    var s1 := s.(userId := None, stores := s.stores.(localStorage := s.stores.localStorage - {UserIdKey}));
    if Synced(s) { ResyncAfter(s, s1, env); }
    if Consistent(s) { RenderConsistent(DepsOf(s), s1, env); }
  }

  lemma TimerFiredKeepsInvariants(s: State, token: nat)
    ensures Synced(s) ==> Synced(TimerFired(s, token))
    ensures Consistent(s) ==> Consistent(TimerFired(s, token))
  {
  }

  // ---------------------------------------------------------------------------
  // Lemmas: where the current theme drifts from the route rule
  // ---------------------------------------------------------------------------

  /** A stored 'dark' theme with auto mode restored under a light system preference: the
      system theme becomes the base, but the stored theme stays on screen on '/'. */
  lemma MountDrift(className: string, stores: Stores, nonce: string, env: Env)
    requires !HasServerTheme(className) && !env.prefersDark
    requires Cookies.ReadCookie(stores.cookies, ThemeKey) == "dark"
    requires Cookies.ReadCookie(stores.cookies, AutoThemeKey) == "true"
    ensures var r := Mount(className, stores, nonce, env);
      && r.autoTheme && r.baseTheme == "light" && r.currentTheme == "dark" && r.currentRoute == DefaultRoute
      && !Consistent(r)
  {
    MountFallback(className, stores, nonce, env);
  }

  /** The jar a previous visit leaves after `setCookie('theme', 'dark')` and
      `setCookie('autoTheme', 'true')`. */
  function PreviousVisitJar(jar: Cookies.Jar, expires: string): Cookies.Jar {
    var jar1 := Cookies.WriteCookie(jar, Cookies.SetCookieText(ThemeKey, "dark", expires));
    Cookies.WriteCookie(jar1, Cookies.SetCookieText(AutoThemeKey, "true", expires))
  }

  lemma PreviousVisitReads(jar: Cookies.Jar, expires: string)
    requires Cookies.ValidJar(jar)
    ensures Cookies.ReadCookie(PreviousVisitJar(jar, expires), ThemeKey) == "dark"
    ensures Cookies.ReadCookie(PreviousVisitJar(jar, expires), AutoThemeKey) == "true"
  {
    var jar1 := Cookies.WriteCookie(jar, Cookies.SetCookieText(ThemeKey, "dark", expires));
    Cookies.ReadAfterSetCookie(jar, ThemeKey, "dark", expires);
    Cookies.ReadAfterSetCookie(jar1, AutoThemeKey, "true", expires);
  }

  /** The drift on a concrete page: no marker, the jar of such a visit, a light system theme. */
  lemma MountDriftWitness(jar: Cookies.Jar, expires: string, nonce: string, env: Env)
    requires Cookies.ValidJar(jar) && !env.prefersDark
    ensures var r := Mount("", Stores(PreviousVisitJar(jar, expires), map[], map[]), nonce, env);
      r.baseTheme == "light" && r.currentTheme == "dark" && !Consistent(r)
  {
    PreviousVisitReads(jar, expires);
    assert Themes.ServerTheme("").None?;
    MountDrift("", Stores(PreviousVisitJar(jar, expires), map[], map[]), nonce, env);
  }

  /** Once drifted, choosing the base theme again repaints nothing: neither the base
      theme nor the current theme changes, so the route effect does not run. */
  lemma ChangeThemeKeepsDrift(s: State, env: Env)
    requires !Consistent(s)
    ensures var r := ChangeTheme(s, s.baseTheme, env);
      r.currentTheme == s.currentTheme && r.baseTheme == s.baseTheme && !Consistent(r)
  {
    var s1 := s.(autoTheme := false, baseTheme := s.baseTheme);
    RenderFrame(DepsOf(s), s1, env);
    RenderCurrent(DepsOf(s), s1, env);
  }

  /** Once drifted, navigating to the route already shown repaints nothing either. */
  lemma NavigateKeepsDrift(s: State, env: Env)
    requires !Consistent(s)
    ensures var r := NavigateToRoute(s, s.currentRoute, env);
      r.currentTheme == s.currentTheme && r.baseTheme == s.baseTheme && !Consistent(r)
  {
    var s1 := s.(currentRoute := s.currentRoute);
    assert s1 == s;
    FlushUnchanged(s, env, 3);
  }

  /** The DB result equal to the base theme, arriving on an overridden route, paints the
      base theme although the route asks for its override. */
  lemma UserThemeLoadedDrift(s: State, env: Env)
    requires Consistent(s) && s.pendingUserTheme == Some(s.baseTheme) && s.currentTheme != s.baseTheme
    ensures var r := UserThemeLoaded(s, env);
      r.currentTheme == s.baseTheme && r.baseTheme == s.baseTheme && !Consistent(r)
  {
    var s1 := s.(baseTheme := s.baseTheme, currentTheme := s.baseTheme, pendingUserTheme := None);
    var c1 := Commit(DepsOf(s), s1, env);
    var c2 := Commit(DepsOf(s1), c1, env);
    RenderSteps(DepsOf(s), s1, env);
    CommitFrame(DepsOf(s), s1, env);
    CommitFrame(DepsOf(s1), c1, env);
    CommitFrame(DepsOf(c1), c2, env);
  }

  /** The mount when the DB load resolves before the first re-render, as it does for the
      `localStorage`-backed DB: its `.then` callback runs as a microtask right after the
      mount's effects, so its updates join the init effect's in the same batch. */
  function MountWithLoadedTheme(className: string, stores: Stores, nonce: string, env: Env): State {
    var s3 := MountCommit(className, stores, nonce, env);
    var s4 := match s3.pendingUserTheme
      case None => s3
      case Some(t) => s3.(baseTheme := t, currentTheme := t, pendingUserTheme := None);
    Render(DepsOf(InitialState(className, stores, nonce)), s4, env)
  }

  /** With that timing the DB theme never drifts from the route rule, and in auto mode the
      autoTheme effect, running after the DB theme landed, replaces it by the system theme. */
  lemma MountWithLoadedThemeSpec(className: string, stores: Stores, nonce: string, env: Env)
    ensures var init := InitEffect(className, stores, env);
      var r := MountWithLoadedTheme(className, stores, nonce, env);
      && r.autoTheme == init.autoTheme && r.userId == init.userId && r.pendingUserTheme.None?
      && (init.pendingUserTheme.Some? ==>
            && r.baseTheme == (if init.autoTheme then Themes.SystemTheme(env.prefersDark) else init.pendingUserTheme.value)
            && Consistent(r))
      && (init.pendingUserTheme.None? ==> r == Mount(className, stores, nonce, env))
  {
    var s0 := InitialState(className, stores, nonce);
    var s3 := MountCommit(className, stores, nonce, env);
    MountCommitFields(className, stores, nonce, env);
    if s3.pendingUserTheme.Some? {
      var t := s3.pendingUserTheme.value;
      var s4 := s3.(baseTheme := t, currentTheme := t, pendingUserTheme := None);
      assert Consistent(s4);
      RenderFrame(DepsOf(s0), s4, env);
      RenderConsistent(DepsOf(s0), s4, env);
    } else {
      RenderFrame(DepsOf(s0), s3, env);
    }
  }

  // ---------------------------------------------------------------------------
  // Lemmas: scenarios
  // ---------------------------------------------------------------------------

  /** Nothing stored and no marker: 'light', auto mode off. */
  lemma EmptyBootScenario(db: map<string, string>, nonce: string, env: Env)
    ensures var r := Mount("", Stores([], map[], db), nonce, env);
      r.baseTheme == DefaultTheme && r.currentTheme == DefaultTheme && !r.autoTheme && r.userId.None?
  {
    Cookies.ReadCookieLookup([], ThemeKey);
    Cookies.ReadCookieLookup([], AutoThemeKey);
    assert Themes.ServerTheme("").None?;
    MountFallback("", Stores([], map[], db), nonce, env);
  }

  /** Cookie `theme=dark`, `autoTheme=true`, dark system: auto mode with a dark base; a later
      light notification makes the base light with no `changeTheme`. */
  lemma CookieAutoScenario(className: string, stores: Stores, nonce: string, env: Env)
    requires !HasServerTheme(className) && env.prefersDark && Cookies.ValidJar(stores.cookies)
    requires Cookies.ReadCookie(stores.cookies, ThemeKey) == "dark"
    requires Cookies.ReadCookie(stores.cookies, AutoThemeKey) == "true"
    ensures var r := Mount(className, stores, nonce, env);
      && r.autoTheme && r.baseTheme == "dark" && r.currentTheme == "dark"
      && SystemThemeChanged(r, env.(prefersDark := false)).baseTheme == "light"
  {
    var r := Mount(className, stores, nonce, env);
    MountFallback(className, stores, nonce, env);
    MountSynced(className, stores, nonce, env);
    SystemThemeChangedSpec(r, env.(prefersDark := false));
  }

  /** Auto mode switched on under a dark system gives 'dark'; a manual 'light' then turns it
      off, and later notifications leave the base alone. */
  lemma AutoThenManualScenario(s: State, env: Env, later: Env)
    requires Synced(s) && !s.autoTheme && env.prefersDark
    ensures var r1 := ToggleAutoTheme(s, env);
      var r2 := ChangeTheme(r1, "light", env);
      && r1.autoTheme && r1.baseTheme == "dark"
      && !r2.autoTheme && r2.baseTheme == "light"
      && SystemThemeChanged(r2, later) == r2
  {
    var r1 := ToggleAutoTheme(s, env);
    ToggleAutoThemeSpec(s, env);
    ToggleAutoThemeKeepsInvariants(s, env);
    ChangeThemeKeepsInvariants(r1, "light", env);
    var r2 := ChangeTheme(r1, "light", env);
    ChangeThemeSpec(r1, "light", env);
    SystemThemeChangedSpec(r2, later);
  }

  /** An import naming "neon" changes nothing, and nothing is reported. */
  lemma NeonImportScenario(s: State, env: Env)
    ensures var file := Parsed(ImportData(Some("neon"), Some(false)));
      ImportTheme(s, file, env) == s && !ImportLogsError(file)
  {
    assert !Themes.IsKnownTheme("neon");
  }
}
