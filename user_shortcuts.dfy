/**
 * Username shortcuts: the custom map kept under "custom-user-shortcuts"
 * and the lookup that turns what was typed into a user id. The lookup key
 * is the lower-cased input; a custom mapping wins over a default one, and
 * a mapping to the empty string counts as none, because both checks test
 * truthiness.
 */
module UserShortcuts {
  import opened Wrappers
  import opened JsText
  import opened Storage

  type Shortcuts = map<string, string>

  /**
   * `getCustomShortcuts` on what the key holds: the stored map, or no
   * shortcuts when nothing is stored or the text does not parse.
   */
  function ReadShortcuts(item: Option<Stored<Shortcuts>>): (r: Shortcuts)
    ensures item == None || item == Some(Malformed) ==> r == map[]
  {
    if item.Some? && item.value.Json? then item.value.value else map[]
  }

  /** `shortcuts[key]` is truthy: present and not the empty string. */
  predicate Maps(shortcuts: Shortcuts, key: string) {
    key in shortcuts && shortcuts[key] != ""
  }

  /** `getProcessedUsername` given both maps. */
  function ProcessedUsername(input: string, custom: Shortcuts, defaults: Shortcuts): (r: string)
    ensures r == input || r != ""
  {
    var key := Lower(input);
    if Maps(custom, key) then custom[key]
    else if Maps(defaults, key) then defaults[key]
    else input
  }

  /**
   * The three cases in priority order: a custom mapping of the lower-cased
   * input, else a default one, else the input as typed.
   */
  lemma ProcessedUsernamePriority(input: string, custom: Shortcuts, defaults: Shortcuts)
    ensures Maps(custom, Lower(input)) ==> ProcessedUsername(input, custom, defaults) == custom[Lower(input)]
    ensures !Maps(custom, Lower(input)) && Maps(defaults, Lower(input)) ==>
              ProcessedUsername(input, custom, defaults) == defaults[Lower(input)]
    ensures !Maps(custom, Lower(input)) && !Maps(defaults, Lower(input)) ==>
              ProcessedUsername(input, custom, defaults) == input
  {
  }

  /** Inputs that differ only in case resolve alike whenever one of them is mapped. */
  lemma ProcessedUsernameIgnoresCase(a: string, b: string, custom: Shortcuts, defaults: Shortcuts)
    requires Lower(a) == Lower(b)
    requires Maps(custom, Lower(a)) || Maps(defaults, Lower(a))
    ensures ProcessedUsername(a, custom, defaults) == ProcessedUsername(b, custom, defaults)
  {
  }

  /** A custom mapping to "" behaves as if the key were not there. */
  lemma EmptyMappingIsAbsent(input: string, custom: Shortcuts, defaults: Shortcuts, key: string)
    ensures ProcessedUsername(input, custom[key := ""], defaults) == ProcessedUsername(input, custom - {key}, defaults)
  {
  }

  /** The "custom-user-shortcuts" key of the store. */
  class ShortcutStore {
    var item: Option<Stored<Shortcuts>>

    constructor(item: Option<Stored<Shortcuts>>)
      ensures this.item == item
    {
      this.item := item;
    }

    /** `saveCustomShortcuts`: the next read returns the saved map. */
    method SaveCustomShortcuts(shortcuts: Shortcuts)
      modifies this
      ensures item == Some(Json(shortcuts)) && ReadShortcuts(item) == shortcuts
    {
      item := Some(Json(shortcuts));
    }

    /** `getProcessedUsername` with the custom map read from the store. */
    method GetProcessedUsername(input: string, defaults: Shortcuts) returns (r: string)
      ensures Maps(ReadShortcuts(item), Lower(input)) ==> r == ReadShortcuts(item)[Lower(input)]
      ensures !Maps(ReadShortcuts(item), Lower(input)) && Maps(defaults, Lower(input)) ==> r == defaults[Lower(input)]
      ensures !Maps(ReadShortcuts(item), Lower(input)) && !Maps(defaults, Lower(input)) ==> r == input
    {
      var custom := ReadShortcuts(item);
      r := ProcessedUsername(input, custom, defaults);
    }
  }
}
