/**
 * The login page. It takes the same submit decision as the login hook
 * (the protected-user list and the branches are the same), but a success
 * navigates to the calendar instead of opening the information dialog,
 * and editing the name resets the PIN request and the PIN.
 */
module LoginPage {
  import opened Wrappers
  import opened ProtectedLogin
  import ScheduleService

  const CALENDAR: string := "/calendar"

  class Login {
    const protectedUsersEnv: string
    const protectedPin: string
    var username: string
    var pin: string
    var isLoading: bool
    var needsPin: bool
    /** The "username", "userRule" and "isProtectedUser" keys of the store. */
    var storedUsername: Option<string>
    var storedRule: Option<UserRule>
    var storedProtected: Option<string>
    /** The page opened in a new tab, and where this page navigated, if anywhere. */
    var openedTab: Option<string>
    var navigatedTo: Option<string>

    constructor(protectedUsersEnv: string, protectedPin: string,
                storedUsername: Option<string>, storedRule: Option<UserRule>, storedProtected: Option<string>)
      ensures this.protectedUsersEnv == protectedUsersEnv && this.protectedPin == protectedPin
      ensures username == "" && pin == "" && !isLoading && !needsPin
      ensures this.storedUsername == storedUsername && this.storedRule == storedRule
      ensures this.storedProtected == storedProtected && openedTab == None && navigatedTo == None
    {
      this.protectedUsersEnv := protectedUsersEnv;
      this.protectedPin := protectedPin;
      username := "";
      pin := "";
      isLoading := false;
      needsPin := false;
      this.storedUsername := storedUsername;
      this.storedRule := storedRule;
      this.storedProtected := storedProtected;
      openedTab := None;
      navigatedTo := None;
    }

    /** The username field's `onChange`: a new name withdraws the PIN request and clears the PIN. */
    method OnChangeUsername(value: string)
      modifies this
      ensures username == value && !needsPin && pin == ""
      ensures isLoading == old(isLoading) && navigatedTo == old(navigatedTo) && openedTab == old(openedTab)
      ensures storedUsername == old(storedUsername) && storedRule == old(storedRule)
      ensures storedProtected == old(storedProtected)
    {
      username := value;
      if needsPin {
        needsPin := false;
      }
      pin := "";
    }

    /** The PIN field's `onChange`. */
    method OnChangePin(value: string)
      modifies this
      ensures pin == value && username == old(username) && needsPin == old(needsPin)
      ensures isLoading == old(isLoading) && navigatedTo == old(navigatedTo) && openedTab == old(openedTab)
      ensures storedUsername == old(storedUsername) && storedRule == old(storedRule)
      ensures storedProtected == old(storedProtected)
    {
      pin := value;
    }

    /**
     * `handleSubmit`, with the shortcut and user-rule lookups passed in.
     * The navigation that follows a success after half a second is taken
     * as done.
     */
    method HandleSubmit(process: string -> string, ruleOf: string -> Option<UserRule>) returns (outcome: Outcome)
      modifies this
      ensures var processed := process(username);
              outcome == Submit(processed, IsUserProtected(protectedUsersEnv, processed), old(needsPin),
                                pin, protectedPin, ruleOf(processed))
      ensures username == old(username) && pin == old(pin)
      ensures needsPin == (old(needsPin) || outcome == PinRequested)
      ensures outcome.Redirected? ==> openedTab == Some(outcome.url)
      ensures !outcome.Redirected? ==> openedTab == old(openedTab)
      ensures outcome.LoggedIn? ==>
                isLoading && navigatedTo == Some(CALENDAR) && storedUsername == Some(process(username))
                && storedRule == Some(ruleOf(process(username)).GetOr(NO_RULE))
                && storedProtected == Some(BoolText(outcome.protectedUser))
      ensures !outcome.LoggedIn? ==>
                isLoading == old(isLoading) && navigatedTo == old(navigatedTo)
                && storedUsername == old(storedUsername) && storedRule == old(storedRule)
                && storedProtected == old(storedProtected)
    {
      var processed := process(username);
      var protectedUser := IsUserProtected(protectedUsersEnv, processed);
      var rule := ruleOf(processed);
      outcome := Submit(processed, protectedUser, needsPin, pin, protectedPin, rule);
      if outcome == PinRequested {
        needsPin := true;
      } else if outcome.Redirected? {
        openedTab := Some(outcome.url);
      } else if outcome.LoggedIn? {
        StoreLogin(processed, rule.GetOr(NO_RULE), protectedUser);
      }
    }

    /** The success branch: loading starts, three keys are stored, the page moves to the calendar. */
    method StoreLogin(processed: string, rule: UserRule, protectedUser: bool)
      modifies this
      ensures isLoading && navigatedTo == Some(CALENDAR)
      ensures storedUsername == Some(processed) && storedRule == Some(rule)
      ensures storedProtected == Some(BoolText(protectedUser))
      ensures username == old(username) && pin == old(pin)
      ensures needsPin == old(needsPin) && openedTab == old(openedTab)
    {
      isLoading := true;
      storedUsername := Some(processed);
      storedRule := Some(rule);
      storedProtected := Some(BoolText(protectedUser));
      navigatedTo := Some(CALENDAR);
    }
  }

  /**
   * A protected user with a valid id and the configured, non-empty PIN
   * logs in on the second submit and not on the first; a redirect rule
   * and the shortcut lookup are passed in as for `HandleSubmit`.
   */
  method ProtectedLoginTakesTwoSubmits(page: Login, process: string -> string, ruleOf: string -> Option<UserRule>)
    returns (first: Outcome, second: Outcome)
    requires !page.needsPin && page.pin == page.protectedPin && page.protectedPin != ""
    requires ScheduleService.IsStringDotString(process(page.username))
    requires IsUserProtected(page.protectedUsersEnv, process(page.username))
    requires !Redirects(ruleOf(process(page.username)))
    modifies page
    ensures first == PinRequested && second == LoggedIn(true)
    ensures page.storedUsername == Some(process(page.username)) && page.navigatedTo == Some(CALENDAR)
  {
    first := page.HandleSubmit(process, ruleOf);
    second := page.HandleSubmit(process, ruleOf);
  }
}
