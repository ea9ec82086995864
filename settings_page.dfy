/**
 * The settings page: the two display preferences, the custom shortcut
 * map, the recent-username list and the list of extra calendar URLs,
 * each kept in the store and mirrored in the page's state.
 */
module SettingsPage {
  import opened Wrappers
  import opened JsText
  import opened Sequences
  import opened Storage
  import opened UserShortcuts
  import opened RecentUsernames

  /** A preference read back: on unless the stored text is exactly "false". */
  function Preference(stored: Option<string>): bool {
    stored != Some("false")
  }

  /** `JSON.stringify` of a boolean. */
  function PreferenceText(b: bool): string {
    if b then "true" else "false"
  }

  /** A written preference reads back as written; nothing stored reads as on. */
  lemma PreferenceRoundTrip(b: bool)
    ensures Preference(Some(PreferenceText(b))) == b
    ensures Preference(None)
  {
    assert "true" != "false" by {
      assert "true"[0] != "false"[0];
    }
  }

  /** `{ ...shortcuts, [key.toLowerCase()]: value }`. */
  function WithShortcut(shortcuts: Shortcuts, key: string, value: string): (r: Shortcuts)
    ensures r.Keys == shortcuts.Keys + {Lower(key)}
  {
    shortcuts[Lower(key) := value]
  }

  /**
   * The added shortcut takes effect at once: typing its key in any case
   * logs in as its value, whatever the default table says.
   */
  lemma AddedShortcutResolves(shortcuts: Shortcuts, key: string, value: string, input: string, defaults: Shortcuts)
    requires value != "" && Lower(input) == Lower(key)
    ensures ProcessedUsername(input, WithShortcut(shortcuts, key, value), defaults) == value
  {
  }

  /** Other keys keep their mappings. */
  lemma AddedShortcutKeepsOthers(shortcuts: Shortcuts, key: string, value: string, other: string)
    requires other != Lower(key)
    ensures other in WithShortcut(shortcuts, key, value) <==> other in shortcuts
    ensures other in shortcuts ==> WithShortcut(shortcuts, key, value)[other] == shortcuts[other]
  {
  }

  /** After a removal the key falls back to the default table. */
  lemma RemovedShortcutFallsBack(shortcuts: Shortcuts, input: string, defaults: Shortcuts)
    ensures ProcessedUsername(input, shortcuts - {Lower(input)}, defaults) == ProcessedUsername(input, map[], defaults)
  {
  }

  /** `handleAddUrl`'s new list: a non-empty URL not yet listed goes last. */
  function WithUrl(urls: seq<string>, url: string): seq<string> {
    if url != "" && url !in urls then urls + [url] else urls
  }

  /** The list never gains a duplicate and always holds a non-empty URL once asked for. */
  lemma WithUrlKeepsNoDup(urls: seq<string>, url: string)
    requires NoDup(urls)
    ensures NoDup(WithUrl(urls, url))
    ensures url != "" ==> url in WithUrl(urls, url)
    ensures forall x :: x in WithUrl(urls, url) <==> x in urls || (x == url && url != "")
  {
    if url != "" && url !in urls {
      var r := urls + [url];
      forall i, j | 0 <= i < j < |r| ensures r[i] != r[j] {
        if j == |urls| {
          assert r[i] in urls;
        }
      }
    }
  }

  /** `customUrls.filter(url => url !== urlToRemove)`. */
  function WithoutUrl(urls: seq<string>, url: string): (r: seq<string>)
    ensures |r| <= |urls|
  {
    if urls == [] then []
    else
      var front, last := urls[..|urls| - 1], urls[|urls| - 1];
      WithoutUrl(front, url) + if last == url then [] else [last]
  }

  /** Exactly the other URLs survive. */
  lemma {:induction false} WithoutUrlMembers(urls: seq<string>, url: string, x: string)
    ensures x in WithoutUrl(urls, url) <==> x in urls && x != url
  {
    if urls != [] {
      var front := urls[..|urls| - 1];
      WithoutUrlMembers(front, url, x);
      assert urls == front + [urls[|urls| - 1]];
    }
  }

  /** Removal works piece by piece, so the surviving URLs keep their order. */
  lemma {:induction false} WithoutUrlConcat(a: seq<string>, b: seq<string>, url: string)
    ensures WithoutUrl(a + b, url) == WithoutUrl(a, url) + WithoutUrl(b, url)
    decreases |b|
  {
    if b == [] {
      assert a + b == a;
    } else {
      var front := b[..|b| - 1];
      WithoutUrlConcat(a, front, url);
      assert (a + b)[..|a + b| - 1] == a + front;
    }
  }

  /** Removing a URL that is not listed changes nothing. */
  lemma {:induction false} WithoutAbsentUrl(urls: seq<string>, url: string)
    requires url !in urls
    ensures WithoutUrl(urls, url) == urls
  {
    if urls != [] {
      var front := urls[..|urls| - 1];
      WithoutAbsentUrl(front, url);
      assert urls == front + [urls[|urls| - 1]];
    }
  }

  const LOGIN: string := "/login"

  class Settings {
    /** The "custom-user-shortcuts" and "recentUsernames" keys. */
    const shortcutStore: ShortcutStore
    const recentStore: RecentStore
    var showLandingPage: bool
    var showNotifications: bool
    var shortcuts: Shortcuts
    var newShortcutKey: string
    var newShortcutValue: string
    var recentUsernames: seq<RecentUsername>
    var customUrls: seq<string>
    var newUrl: string
    /** The "customCalendarUrls", "showLandingPage" and "showNotifications" keys. */
    var storedUrls: Option<seq<string>>
    var storedLanding: Option<string>
    var storedNotifications: Option<string>
    /** The "username" key, and where the page navigated, if anywhere. */
    var storedUsername: Option<string>
    var navigatedTo: Option<string>

    /**
     * The first render and its effects: the preferences and lists are
     * read from the store, and the effects write the URL list and both
     * preferences back.
     */
    constructor(shortcutStore: ShortcutStore, recentStore: RecentStore, storedUrls: Option<seq<string>>,
                storedLanding: Option<string>, storedNotifications: Option<string>,
                storedUsername: Option<string>)
      ensures this.shortcutStore == shortcutStore && this.recentStore == recentStore
      ensures showLandingPage == Preference(storedLanding)
      ensures showNotifications == Preference(storedNotifications)
      ensures shortcuts == ReadShortcuts(shortcutStore.item)
      ensures recentUsernames == ReadList(recentStore.item)
      ensures customUrls == storedUrls.GetOr([])
      ensures newShortcutKey == "" && newShortcutValue == "" && newUrl == ""
      ensures this.storedUrls == Some(customUrls)
      ensures this.storedLanding == Some(PreferenceText(showLandingPage))
      ensures this.storedNotifications == Some(PreferenceText(showNotifications))
      ensures this.storedUsername == storedUsername && navigatedTo == None
    {
      this.shortcutStore := shortcutStore;
      this.recentStore := recentStore;
      showLandingPage := Preference(storedLanding);
      showNotifications := Preference(storedNotifications);
      shortcuts := ReadShortcuts(shortcutStore.item);
      newShortcutKey := "";
      newShortcutValue := "";
      recentUsernames := ReadList(recentStore.item);
      customUrls := storedUrls.GetOr([]);
      newUrl := "";
      this.storedUrls := Some(storedUrls.GetOr([]));
      this.storedLanding := Some(PreferenceText(Preference(storedLanding)));
      this.storedNotifications := Some(PreferenceText(Preference(storedNotifications)));
      this.storedUsername := storedUsername;
      navigatedTo := None;
    }

    /** The landing-page switch and the effect that stores it. */
    method SetShowLandingPage(b: bool)
      modifies this`showLandingPage, this`storedLanding
      ensures showLandingPage == b && storedLanding == Some(PreferenceText(b))
      ensures Preference(storedLanding) == b
      ensures showNotifications == old(showNotifications) && storedNotifications == old(storedNotifications)
      ensures shortcuts == old(shortcuts) && customUrls == old(customUrls) && storedUrls == old(storedUrls)
      ensures recentUsernames == old(recentUsernames)
    {
      showLandingPage := b;
      storedLanding := Some(PreferenceText(b));
      PreferenceRoundTrip(b);
    }

    /** The notifications switch and the effect that stores it. */
    method SetShowNotifications(b: bool)
      modifies this`showNotifications, this`storedNotifications
      ensures showNotifications == b && storedNotifications == Some(PreferenceText(b))
      ensures Preference(storedNotifications) == b
      ensures showLandingPage == old(showLandingPage) && storedLanding == old(storedLanding)
      ensures shortcuts == old(shortcuts) && customUrls == old(customUrls) && storedUrls == old(storedUrls)
      ensures recentUsernames == old(recentUsernames)
    {
      showNotifications := b;
      storedNotifications := Some(PreferenceText(b));
      PreferenceRoundTrip(b);
    }

    /**
     * `handleAddShortcut`: with both fields filled, the lower-cased key is
     * set (replacing an older mapping), the map is saved and the fields
     * are cleared; otherwise nothing changes.
     */
    method HandleAddShortcut()
      modifies this`shortcuts, this`newShortcutKey, this`newShortcutValue, shortcutStore
      ensures old(newShortcutKey) == "" || old(newShortcutValue) == "" ==>
                shortcuts == old(shortcuts) && newShortcutKey == old(newShortcutKey)
                && newShortcutValue == old(newShortcutValue) && shortcutStore.item == old(shortcutStore.item)
      ensures old(newShortcutKey) != "" && old(newShortcutValue) != "" ==>
                shortcuts == WithShortcut(old(shortcuts), old(newShortcutKey), old(newShortcutValue))
                && shortcutStore.item == Some(Json(shortcuts))
                && newShortcutKey == "" && newShortcutValue == ""
      ensures customUrls == old(customUrls) && recentUsernames == old(recentUsernames)
    {
      if newShortcutKey == "" || newShortcutValue == "" {
        return;
      }
      var updated := WithShortcut(shortcuts, newShortcutKey, newShortcutValue);
      shortcuts := updated;
      shortcutStore.SaveCustomShortcuts(updated);
      newShortcutKey := "";
      newShortcutValue := "";
    }

    /** `handleRemoveShortcut`: exactly that key goes, and the map is saved. */
    method HandleRemoveShortcut(key: string)
      modifies this`shortcuts, shortcutStore
      ensures shortcuts == old(shortcuts) - {key} && shortcutStore.item == Some(Json(shortcuts))
      ensures newShortcutKey == old(newShortcutKey) && newShortcutValue == old(newShortcutValue)
      ensures customUrls == old(customUrls) && recentUsernames == old(recentUsernames)
    {
      var remaining := shortcuts - {key};
      shortcuts := remaining;
      shortcutStore.SaveCustomShortcuts(remaining);
    }

    /** `handleRemoveRecent`: the stored list loses the name, and the page shows the list read back. */
    method HandleRemoveRecent(username: string)
      modifies this`recentUsernames, recentStore
      ensures recentStore.item == Some(Json(Without(ReadList(old(recentStore.item)), username)))
      ensures recentUsernames == Without(ReadList(old(recentStore.item)), username)
      ensures shortcuts == old(shortcuts) && customUrls == old(customUrls)
    {
      recentStore.RemoveRecentUsername(username);
      recentUsernames := ReadList(recentStore.item);
    }

    /** `handleClearAllRecent`: the key is removed and the shown list emptied. */
    method HandleClearAllRecent()
      modifies this`recentUsernames, recentStore
      ensures recentStore.item == None && recentUsernames == []
      ensures shortcuts == old(shortcuts) && customUrls == old(customUrls)
    {
      recentStore.ClearRecentUsernames();
      recentUsernames := [];
    }

    /** `handleLogout`: the "username" key is removed and the page moves to the login page. */
    method HandleLogout()
      modifies this`storedUsername, this`navigatedTo
      ensures storedUsername == None && navigatedTo == Some(LOGIN)
      ensures showLandingPage == old(showLandingPage) && showNotifications == old(showNotifications)
      ensures shortcuts == old(shortcuts) && customUrls == old(customUrls) && recentUsernames == old(recentUsernames)
    {
      storedUsername := None;
      navigatedTo := Some(LOGIN);
    }

    /**
     * `handleAddUrl` and the effect that stores the list: a non-empty URL
     * not yet listed is appended and the field cleared; otherwise nothing
     * changes.
     */
    method HandleAddUrl()
      modifies this`customUrls, this`newUrl, this`storedUrls
      ensures customUrls == WithUrl(old(customUrls), old(newUrl)) && storedUrls == Some(customUrls)
      ensures newUrl == if old(newUrl) != "" && old(newUrl) !in old(customUrls) then "" else old(newUrl)
      ensures shortcuts == old(shortcuts) && recentUsernames == old(recentUsernames)
    {
      if newUrl != "" && newUrl !in customUrls {
        customUrls := customUrls + [newUrl];
        newUrl := "";
      }
      storedUrls := Some(customUrls);
    }

    /** `handleRemoveUrl` and the effect that stores the list. */
    method HandleRemoveUrl(urlToRemove: string)
      modifies this`customUrls, this`storedUrls
      ensures customUrls == WithoutUrl(old(customUrls), urlToRemove) && storedUrls == Some(customUrls)
      ensures newUrl == old(newUrl) && shortcuts == old(shortcuts) && recentUsernames == old(recentUsernames)
    {
      customUrls := WithoutUrl(customUrls, urlToRemove);
      storedUrls := Some(customUrls);
    }
  }
}
