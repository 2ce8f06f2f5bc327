/** `ThemeProvider` as an object whose fields are its React state, the browser stores it
 *  writes and the page it paints. Each handler and effect updates the fields in place and
 *  is proved to leave exactly the state the `Engine` function of the same name computes,
 *  so every lemma of `Engine` is a statement about these methods.
 */
module Provider {
  import opened Wrappers
  import Strings
  import Themes
  import Nonce
  import Engine
  import Cookies

  class ThemeProvider {
    var currentTheme: string
    var baseTheme: string
    var autoTheme: bool
    var isTransitioning: bool
    var userId: Option<string>
    var currentRoute: string
    var nonce: string
    var pendingTimer: Option<Engine.Timer>
    var nextToken: nat
    var pendingUserTheme: Option<string>
    var stores: Engine.Stores
    var doc: Engine.Document

    /** The provider's fields as one value. */
    function State(): Engine.State
      reads this
    {
      Engine.State(currentTheme, baseTheme, autoTheme, isTransitioning, userId, currentRoute, nonce,
                   pendingTimer, nextToken, pendingUserTheme, stores, doc)
    }

    /** Mounting on a page whose root has class `htmlClass`, with the given stores; the
        nonce is the hex text of the 16 random bytes the browser supplied. */
    constructor (htmlClass: string, initialStores: Engine.Stores, randomBytes: seq<Nonce.byte>, env: Engine.Env)
      ensures State() == Engine.Mount(htmlClass, initialStores, Nonce.NonceHex(randomBytes), env)
    {
      currentTheme := Engine.DefaultTheme;
      baseTheme := Engine.DefaultTheme;
      autoTheme := false;
      isTransitioning := false;
      userId := None;
      currentRoute := Engine.DefaultRoute;
      nonce := Nonce.NonceHex(randomBytes);
      pendingTimer := None;
      nextToken := 0;
      pendingUserTheme := None;
      stores := initialStores;
      doc := Engine.Document(htmlClass, "", None);
      new;
      assert State() == Engine.InitialState(htmlClass, initialStores, nonce);
      var initial := Engine.DepsOf(State());
      // the init effect reads the stores before the first apply and autoTheme effects write them
      var init := Engine.InitEffect(htmlClass, initialStores, env);
      MountCommit(init, env);
      Render(initial, env);
    }

    /** The mount commit: the apply and autoTheme effects run with the current values,
        then the updates the init effect queued land. */
    method MountCommit(init: Engine.InitUpdates, env: Engine.Env)
      modifies this
      ensures State() == Engine.MountCommitFrom(old(State()), init, env)
    {
      ApplyThemeEffect(env);
      ghost var s1 := State();
      PersistAutoThemeEffect(env);
      assert State() == s1.(stores := Engine.PersistAutoTheme(s1.stores, old(autoTheme), env));
      ApplyInitUpdates(init);
    }

    /** The updates the init effect queued. */
    method ApplyInitUpdates(init: Engine.InitUpdates)
      modifies this
      ensures State() == old(State()).(currentTheme := init.currentTheme, baseTheme := init.baseTheme,
                                       autoTheme := init.autoTheme, userId := init.userId,
                                       pendingUserTheme := init.pendingUserTheme)
    {
      currentTheme := init.currentTheme;
      baseTheme := init.baseTheme;
      autoTheme := init.autoTheme;
      userId := init.userId;
      pendingUserTheme := init.pendingUserTheme;
    }

    /** `setCookie(name, value, 365)`. */
    method SetCookie(name: string, value: string, env: Engine.Env)
      modifies this
      ensures State() == old(State()).(stores := Engine.SetCookie(old(stores), name, value, env))
    {
      stores := Engine.SetCookie(stores, name, value, env);
    }

    /** `saveUserThemeToDB(id, theme)`. */
    method SaveUserThemeToDB(id: string, theme: string)
      modifies this
      ensures State() == old(State()).(stores := Engine.SaveUserThemeToDB(old(stores), id, theme))
      ensures stores.userThemesDB - {id} == old(stores.userThemesDB) - {id}
      ensures Engine.GetItem(stores.userThemesDB, id) == Some(theme)
    {
      stores := stores.(userThemesDB := stores.userThemesDB[id := theme]);
      assert stores.userThemesDB - {id} == old(stores.userThemesDB) - {id};
    }

    /** `loadUserThemeFromDB(id)`: the stored theme, `None` for a missing or empty entry. */
    method LoadUserThemeFromDB(id: string) returns (r: Option<string>)
      ensures r == Engine.LoadUserThemeFromDB(stores, id)
      ensures r.Some? <==> id in stores.userThemesDB && stores.userThemesDB[id] != ""
      ensures r.Some? ==> r.value == stores.userThemesDB[id]
    {
      r := None;
      if id in stores.userThemesDB && stores.userThemesDB[id] != "" {
        r := Some(stores.userThemesDB[id]);
      }
    }

    /** `applyThemeVariables(themeName)`: the stylesheet now holds the theme's palette;
        for a name without a palette the source throws, and `Engine.StyleSheet` is `None`. */
    method ApplyThemeVariables(themeName: string)
      modifies this
      ensures State() == old(State()).(doc := old(doc).(styleTheme := Some(themeName)))
      ensures Engine.StyleSheet(doc) == Themes.ThemeStyle(themeName)
      ensures themeName in Themes.Themes ==>
        Engine.StyleSheet(doc).Some? && Themes.ParseStyle(Engine.StyleSheet(doc).value) == Some(Themes.Themes[themeName].colors)
    {
      if themeName in Themes.Themes {
        Themes.ThemeStyleRoundTrip(themeName);
      }
      doc := doc.(styleTheme := Some(themeName));
    }

    /** The apply effect: start the transition, persist the base theme, paint the current theme. */
    method ApplyThemeEffect(env: Engine.Env)
      modifies this
      ensures State() == Engine.ApplyThemeEffect(old(State()), env)
    {
      StartTransition(env);
      PersistTheme(env);
      PaintTheme();
    }

    /** Raise the transition flag, set `--transition-duration`, and schedule the flag's end,
        replacing the timer still pending. */
    method StartTransition(env: Engine.Env)
      modifies this
      ensures State() == old(State()).(isTransitioning := true,
                                       pendingTimer := Some(Engine.Timer(old(nextToken), Engine.TransitionDelay(env))),
                                       nextToken := old(nextToken) + 1,
                                       doc := old(doc).(transitionDuration := Engine.TransitionDuration(env)))
    {
      isTransitioning := true;
      doc := doc.(transitionDuration := Engine.TransitionDuration(env));
      pendingTimer := Some(Engine.Timer(nextToken, Engine.TransitionDelay(env)));
      nextToken := nextToken + 1;
    }

    /** Persist the base theme to the cookie and `localStorage`, and to the DB when logged in. */
    method PersistTheme(env: Engine.Env)
      modifies this
      ensures State() == old(State()).(stores := Engine.PersistTheme(old(stores), baseTheme, userId, env))
    {
      SetCookie(Engine.ThemeKey, baseTheme, env);
      stores := stores.(localStorage := stores.localStorage[Engine.ThemeKey := baseTheme]);
      if Engine.Truthy(userId) {
        SaveUserThemeToDB(userId.value, baseTheme);
      }
    }

    /** Set the root class `theme-<currentTheme>` and the theme's stylesheet. */
    method PaintTheme()
      modifies this
      ensures State() == old(State()).(doc := old(doc).(className := Themes.MarkerPrefix + currentTheme,
                                                       styleTheme := Some(currentTheme)))
    {
      doc := doc.(className := Themes.MarkerPrefix + currentTheme);
      ApplyThemeVariables(currentTheme);
    }

    /** The persistence of the autoTheme effect. */
    method PersistAutoThemeEffect(env: Engine.Env)
      modifies this
      ensures State() == old(State()).(stores := Engine.PersistAutoTheme(old(stores), old(autoTheme), env))
    {
      SetCookie(Engine.AutoThemeKey, Engine.BoolText(autoTheme), env);
      stores := stores.(localStorage := stores.localStorage[Engine.AutoThemeKey := Engine.BoolText(autoTheme)]);
    }

    /** One commit after a render that showed the current fields, when the render before
        showed `prev`. Effects read the rendered values; the updates they queue (the
        route effect's current theme, the autoTheme effect's system theme) land last. */
    method Commit(prev: Engine.Deps, env: Engine.Env)
      modifies this
      ensures State() == Engine.Commit(prev, old(State()), env)
    {
      var route, base, current, auto, user := currentRoute, baseTheme, currentTheme, autoTheme, userId;
      if prev.currentTheme != current || prev.baseTheme != base || prev.userId != user {
        ApplyThemeEffect(env);
      }
      if prev.autoTheme != auto {
        PersistAutoThemeEffect(env);
      }
      if prev.currentRoute != route || prev.baseTheme != base {
        currentTheme := Themes.EffectiveTheme(route, base);
      }
      if prev.autoTheme != auto && auto {
        ApplySystemTheme(env);
      }
    }

    /** Re-rendering until nothing changes; `Engine.FlushStable` shows three commits are enough. */
    method Render(prev: Engine.Deps, env: Engine.Env)
      modifies this
      ensures State() == Engine.Render(prev, old(State()), env)
    {
      var s0 := State();
      Commit(prev, env);
      var s1 := State();
      Commit(Engine.DepsOf(s0), env);
      var s2 := State();
      Commit(Engine.DepsOf(s1), env);
      assert Engine.Flush(Engine.DepsOf(s2), State(), env, 0) == State();
    }

    /** `applySystemTheme()`: queue the system theme as base theme. */
    method ApplySystemTheme(env: Engine.Env)
      modifies this
      ensures State() == Engine.ApplySystemTheme(old(State()), env)
      ensures baseTheme != "highContrast" && (baseTheme == "dark" <==> env.prefersDark)
    {
      baseTheme := if env.prefersDark then "dark" else "light";
    }

    /** `changeTheme(newTheme)`. */
    method ChangeTheme(newTheme: string, env: Engine.Env)
      modifies this
      ensures State() == Engine.ChangeTheme(old(State()), newTheme, env)
      ensures baseTheme == newTheme && !autoTheme
    {
      var prev := Engine.DepsOf(State());
      autoTheme := false;
      baseTheme := newTheme;
      Engine.RenderFrame(prev, State(), env);
      Render(prev, env);
    }

    /** `toggleAutoTheme()`. */
    method ToggleAutoTheme(env: Engine.Env)
      modifies this
      ensures State() == Engine.ToggleAutoTheme(old(State()), env)
      ensures autoTheme == !old(autoTheme)
    {
      var prev := Engine.DepsOf(State());
      autoTheme := !autoTheme;
      Engine.RenderFrame(prev, State(), env);
      Render(prev, env);
    }

    /** `navigateToRoute(route)`. */
    method NavigateToRoute(route: string, env: Engine.Env)
      modifies this
      ensures State() == Engine.NavigateToRoute(old(State()), route, env)
      ensures currentRoute == route && baseTheme == old(baseTheme) && autoTheme == old(autoTheme)
    {
      var prev := Engine.DepsOf(State());
      currentRoute := route;
      Engine.RenderFrame(prev, State(), env);
      Render(prev, env);
    }

    /** The colour-scheme listener, gated by the `autoTheme` cookie. */
    method OnSystemThemeChange(env: Engine.Env)
      modifies this
      ensures State() == Engine.SystemThemeChanged(old(State()), env)
    {
      if Cookies.ReadCookie(stores.cookies, Engine.AutoThemeKey) == "true" {
        var prev := Engine.DepsOf(State());
        ApplySystemTheme(env);
        Render(prev, env);
      }
    }

    /** The DB load started at mount resolves. */
    method OnUserThemeLoaded(env: Engine.Env)
      modifies this
      ensures State() == Engine.UserThemeLoaded(old(State()), env)
    {
      if pendingUserTheme.Some? {
        var prev := Engine.DepsOf(State());
        var t := pendingUserTheme.value;
        baseTheme := t;
        currentTheme := t;
        pendingUserTheme := None;
        Render(prev, env);
      }
    }

    /** A transition timer fires. */
    method OnTimer(token: nat)
      modifies this
      ensures State() == Engine.TimerFired(old(State()), token)
    {
      if pendingTimer.Some? && pendingTimer.value.token == token {
        isTransitioning := false;
        pendingTimer := None;
      }
    }

    /** `importTheme(file)` once the reader has the text; returns whether it logged. */
    method ImportTheme(file: Engine.ImportFile, env: Engine.Env) returns (logged: bool)
      modifies this
      ensures State() == Engine.ImportTheme(old(State()), file, env)
      ensures logged <==> Engine.ImportLogsError(file)
      ensures logged <==> file.Unparsable? || file.NullDocument?
    {
      logged := !file.Parsed?;
      if file.Parsed? && Engine.ImportAccepted(file.data) {
        ApplyImport(file.data.currentTheme.value, file.data.autoTheme.GetOr(false), env);
      }
    }

    /** The updates of an accepted import, and the renders they cause. */
    method ApplyImport(theme: string, auto: bool, env: Engine.Env)
      modifies this
      ensures State() == Engine.Render(Engine.DepsOf(old(State())), old(State()).(baseTheme := theme, autoTheme := auto), env)
    {
      var prev := Engine.DepsOf(State());
      baseTheme := theme;
      autoTheme := auto;
      Render(prev, env);
    }

    /** The payload `exportTheme` writes. */
    method ExportTheme(timestamp: string) returns (p: Engine.ExportPayload)
      ensures p.currentTheme == baseTheme && p.autoTheme == autoTheme && p.timestamp == timestamp
      ensures p == Engine.ExportTheme(State(), timestamp)
    {
      p := Engine.ExportPayload(baseTheme, autoTheme, timestamp);
    }

    /** `handleLogin` of the login form. */
    method Login(input: string, env: Engine.Env)
      modifies this
      ensures State() == Engine.Login(old(State()), input, env)
    {
      var id := Strings.Trim(input);
      if id != "" {
        var prev := Engine.DepsOf(State());
        userId := Some(id);
        stores := stores.(localStorage := stores.localStorage[Engine.UserIdKey := id]);
        Render(prev, env);
      }
    }

    /** `handleLogout` of the login form. */
    method Logout(env: Engine.Env)
      modifies this
      ensures State() == Engine.Logout(old(State()), env)
    {
      var prev := Engine.DepsOf(State());
      userId := None;
      stores := stores.(localStorage := stores.localStorage - {Engine.UserIdKey});
      Render(prev, env);
    }
  }
}
