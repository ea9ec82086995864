/**
 * The protected login flow: the protected-user list read from the
 * environment, the submit decision shared by the login hook and the login
 * page, and the hook's form state. A protected user needs two submits:
 * the first only asks for the PIN, the second must carry the configured
 * PIN.
 */
module ProtectedLogin {
  import opened Wrappers
  import opened JsText
  import ScheduleService

  /**
   * `getProtectedUsers`: the comma-separated entries of the environment
   * value, trimmed and lower-cased, empty ones dropped.
   */
  function ProtectedUsers(env: string): set<string> {
    set part | part in Split(env, ',') && Lower(Trim(part)) != [] :: Lower(Trim(part))
  }

  /** `isUserProtected`: membership of the lower-cased name. */
  predicate IsUserProtected(env: string, name: string) {
    Lower(name) in ProtectedUsers(env)
  }

  /** Lower-casing never turns a character into whitespace. */
  lemma LowerCharNotSpace(c: char)
    requires !IsJsWhitespace(c)
    ensures !IsJsWhitespace(LowerChar(c))
  {
  }

  /** So an entry that is already trimmed stays trimmed once lower-cased. */
  lemma LowerKeepsTrimmed(t: string)
    requires Trim(t) == t
    ensures Trim(Lower(t)) == Lower(t)
  {
    if t != [] {
      var l := Lower(t);
      LowerCharNotSpace(t[0]);
      LowerCharNotSpace(t[|t| - 1]);
      assert l[0] == LowerChar(t[0]) && l[|l| - 1] == LowerChar(t[|t| - 1]);
      TrimWithoutOuterSpace(l);
    }
  }

  /** Every protected entry is non-empty, lower-case and free of outer whitespace. */
  lemma ProtectedUsersAreNormal(env: string, u: string)
    requires u in ProtectedUsers(env)
    ensures u != [] && Lower(u) == u && Trim(u) == u
  {
    var part :| part in Split(env, ',') && Lower(Trim(part)) != [] && u == Lower(Trim(part));
    LowerIdempotent(Trim(part));
    TrimIdempotent(part);
    LowerKeepsTrimmed(Trim(part));
  }

  /**
   * A name is protected exactly when some entry, trimmed, equals it
   * ignoring case; a name that is empty once lower-cased never is.
   */
  lemma IsUserProtectedIff(env: string, name: string)
    ensures IsUserProtected(env, name) <==>
            Lower(name) != [] && exists part :: part in Split(env, ',') && Lower(Trim(part)) == Lower(name)
  {
  }

  /** Names that differ only in case are protected alike. */
  lemma IsUserProtectedIgnoresCase(env: string, a: string, b: string)
    requires Lower(a) == Lower(b)
    ensures IsUserProtected(env, a) <==> IsUserProtected(env, b)
  {
  }

  /** With the variable unset, the environment value is "" and nobody is protected. */
  lemma NobodyProtectedWithoutList(name: string)
    ensures !IsUserProtected("", name)
  {
    NoSeparatorSplit("", ',');
    assert Split("", ',') == [""];
  }

  /** The part of the stored user rule the login reads: the optional redirect. */
  datatype UserRule = UserRule(redirect: Option<string>)

  /** `{}`, stored when the user has no rule. */
  const NO_RULE: UserRule := UserRule(None)

  /** `userRule?.redirect` is truthy. */
  predicate Redirects(rule: Option<UserRule>) {
    rule.Some? && rule.value.redirect.Some? && rule.value.redirect.value != ""
  }

  /** How a submit ends. */
  datatype Outcome =
    | InvalidFormat          // the processed name is not letters.letters digits
    | PinRequested           // protected, first submit: the PIN field appears
    | WrongPin               // protected, PIN empty or not the configured one
    | Redirected(url: string) // the user rule sends the user elsewhere
    | LoggedIn(protectedUser: bool)

  /** The branches of `handleSubmit`, in order. */
  function Submit(processed: string, protectedUser: bool, needsPin: bool, pin: string,
                  expectedPin: string, rule: Option<UserRule>): (r: Outcome)
    ensures r.LoggedIn? ==> r.protectedUser == protectedUser
  {
    if !ScheduleService.IsStringDotString(processed) then InvalidFormat
    else if protectedUser && !needsPin then PinRequested
    else if protectedUser && (pin == "" || pin != expectedPin) then WrongPin
    else if Redirects(rule) then Redirected(rule.value.redirect.value)
    else LoggedIn(protectedUser)
  }

  /**
   * Logging in needs a valid user id and no redirect; a protected user
   * also needs the PIN to have been asked for and the configured,
   * non-empty PIN to be given.
   */
  lemma LoggedInNeeds(processed: string, protectedUser: bool, needsPin: bool, pin: string,
                      expectedPin: string, rule: Option<UserRule>)
    requires Submit(processed, protectedUser, needsPin, pin, expectedPin, rule).LoggedIn?
    ensures ScheduleService.IsStringDotString(processed) && !Redirects(rule)
    ensures protectedUser ==> needsPin && pin == expectedPin && pin != ""
  {
  }

  /** With no PIN configured a protected user can never log in. */
  lemma EmptyPinLocksOut(processed: string, needsPin: bool, pin: string, rule: Option<UserRule>)
    ensures !Submit(processed, true, needsPin, pin, "", rule).LoggedIn?
  {
  }

  /**
   * The two steps of a protected login: the first submit only asks for
   * the PIN; once asked, the configured PIN logs in (or follows the
   * redirect).
   */
  lemma ProtectedTwoSteps(processed: string, expectedPin: string, rule: Option<UserRule>)
    requires ScheduleService.IsStringDotString(processed)
    ensures Submit(processed, true, false, expectedPin, expectedPin, rule) == PinRequested
    ensures expectedPin != "" && !Redirects(rule) ==>
              Submit(processed, true, true, expectedPin, expectedPin, rule) == LoggedIn(true)
  {
  }

  /** An unprotected valid user logs in on the first submit unless redirected. */
  lemma UnprotectedOneStep(processed: string, needsPin: bool, pin: string, expectedPin: string,
                           rule: Option<UserRule>)
    requires ScheduleService.IsStringDotString(processed) && !Redirects(rule)
    ensures Submit(processed, false, needsPin, pin, expectedPin, rule) == LoggedIn(false)
  {
  }

  /** `String(protectedUser)`. */
  function BoolText(b: bool): string {
    if b then "true" else "false"
  }

  /**
   * The `useProtectedLogin` hook: the form state and the three keys a
   * successful login stores. The environment's user list and PIN are
   * fixed when the hook is created.
   */
  class LoginForm {
    const protectedUsersEnv: string
    const protectedPin: string
    var username: string
    var pin: string
    var needsPin: bool
    var showPin: bool
    var isLoading: bool
    var infoOpen: bool
    /** The "username", "userRule" and "isProtectedUser" keys of the store. */
    var storedUsername: Option<string>
    var storedRule: Option<UserRule>
    var storedProtected: Option<string>
    /** The page opened in a new tab, if any. */
    var openedTab: Option<string>

    constructor(protectedUsersEnv: string, protectedPin: string,
                storedUsername: Option<string>, storedRule: Option<UserRule>, storedProtected: Option<string>)
      ensures this.protectedUsersEnv == protectedUsersEnv && this.protectedPin == protectedPin
      ensures username == "" && pin == "" && !needsPin && !showPin && !isLoading && !infoOpen
      ensures this.storedUsername == storedUsername && this.storedRule == storedRule
      ensures this.storedProtected == storedProtected && openedTab == None
    {
      this.protectedUsersEnv := protectedUsersEnv;
      this.protectedPin := protectedPin;
      username := "";
      pin := "";
      needsPin := false;
      showPin := false;
      isLoading := false;
      infoOpen := false;
      this.storedUsername := storedUsername;
      this.storedRule := storedRule;
      this.storedProtected := storedProtected;
      openedTab := None;
    }

    /** `onChangeUsername`: a new name hides and clears the PIN. */
    method OnChangeUsername(value: string)
      modifies this
      ensures username == value && !needsPin && pin == "" && !showPin
      ensures isLoading == old(isLoading) && infoOpen == old(infoOpen)
      ensures storedUsername == old(storedUsername) && storedRule == old(storedRule)
      ensures storedProtected == old(storedProtected) && openedTab == old(openedTab)
    {
      username := value;
      needsPin := false;
      pin := "";
      showPin := false;
    }

    /** `onChangePin`. */
    method OnChangePin(value: string)
      modifies this
      ensures pin == value
      ensures username == old(username) && needsPin == old(needsPin) && showPin == old(showPin)
      ensures isLoading == old(isLoading) && infoOpen == old(infoOpen)
      ensures storedUsername == old(storedUsername) && storedRule == old(storedRule)
      ensures storedProtected == old(storedProtected) && openedTab == old(openedTab)
    {
      pin := value;
    }

    /** `toggleShowPin`. */
    method ToggleShowPin()
      modifies this
      ensures showPin == !old(showPin)
      ensures username == old(username) && pin == old(pin) && needsPin == old(needsPin)
      ensures isLoading == old(isLoading) && infoOpen == old(infoOpen)
      ensures storedUsername == old(storedUsername) && storedRule == old(storedRule)
      ensures storedProtected == old(storedProtected) && openedTab == old(openedTab)
    {
      showPin := !showPin;
    }

    /**
     * `handleSubmit`. `process` is the shortcut lookup and `ruleOf` the
     * user-rule lookup, both over data this model does not contain.
     * Only a PIN request, a redirect or a login changes anything.
     */
    method HandleSubmit(process: string -> string, ruleOf: string -> Option<UserRule>) returns (outcome: Outcome)
      modifies this
      ensures var processed := process(username);
              outcome == Submit(processed, IsUserProtected(protectedUsersEnv, processed), old(needsPin),
                                pin, protectedPin, ruleOf(processed))
      ensures username == old(username) && pin == old(pin) && showPin == old(showPin)
      ensures needsPin == (old(needsPin) || outcome == PinRequested)
      ensures outcome.Redirected? ==> openedTab == Some(outcome.url)
      ensures !outcome.Redirected? ==> openedTab == old(openedTab)
      ensures outcome.LoggedIn? ==>
                isLoading && infoOpen && storedUsername == Some(process(username))
                && storedRule == Some(ruleOf(process(username)).GetOr(NO_RULE))
                && storedProtected == Some(BoolText(outcome.protectedUser))
      ensures !outcome.LoggedIn? ==>
                isLoading == old(isLoading) && infoOpen == old(infoOpen)
                && storedUsername == old(storedUsername) && storedRule == old(storedRule)
                && storedProtected == old(storedProtected)
    {
      var processed := process(username);
      var protectedUser := IsUserProtected(protectedUsersEnv, processed);
      var rule := ruleOf(processed);
      outcome := Submit(processed, protectedUser, needsPin, pin, protectedPin, rule);
      if outcome == PinRequested {
        needsPin := true;
      } else if outcome.Redirected? {
        openedTab := Some(outcome.url);
      } else if outcome.LoggedIn? {
        StoreLogin(processed, rule.GetOr(NO_RULE), protectedUser);
      }
    }

    /** The success branch: loading starts, three keys are stored, the information dialog opens. */
    method StoreLogin(processed: string, rule: UserRule, protectedUser: bool)
      modifies this
      ensures isLoading && infoOpen && storedUsername == Some(processed) && storedRule == Some(rule)
      ensures storedProtected == Some(BoolText(protectedUser))
      ensures username == old(username) && pin == old(pin) && showPin == old(showPin)
      ensures needsPin == old(needsPin) && openedTab == old(openedTab)
    {
      isLoading := true;
      storedUsername := Some(processed);
      storedRule := Some(rule);
      storedProtected := Some(BoolText(protectedUser));
      infoOpen := true;
    }
  }
}
