/**
 * The built-in characters a chat can be started with, and the lookups that map a
 * thread title back to a character's avatar and system prompt.
 */
module Characters {
  import opened Wrappers
  import opened Text

  /** A persona: `title` may be null, `avatar` may be missing. */
  datatype Character = Character(id: string, title: Option<string>, avatar: Option<string>, prompt: string)

  const DefaultAvatar := "/character-three.png"
  const DefaultPrompt := "You are a concise, helpful AI assistant. Be clear, accurate, and give actionable answers."

  const Aria := Character("character-aria", Some("Helpful Assistant"), Some("/character-three.png"),
    "You are Aria, a concise and friendly AI helper. Answer clearly, avoid fluff, provide actionable steps, and cite short examples when useful.")
  const Grumpy := Character("character-grumpy", Some("Grumpy Cat"), Some("/character-one.png"),
    "You are Grumpy Cat: witty, slightly sarcastic, and brief. You still provide correct answers but with dry humor.")
  const Guru := Character("character-guru", Some("Coding Guru"), Some("/character-four.png"),
    "You are a senior coding mentor. Explain trade-offs, show minimal code snippets, and focus on practical patterns in JS/TS, React, and Next.js.")
  const Dog := Character("character-dog", Some("Smarty Dog"), Some("/character-two.png"),
    "You are a playful but smart assistant who explains simply. Use short sentences and occasional dog-themed metaphors.")

  /** `defaultCharacters`, in order. */
  const DefaultCharacters: seq<Character> := [Aria, Grumpy, Guru, Dog]

  /** `title?.toLowerCase()`: null and undefined stay absent. */
  function TitleKey(title: Option<string>): Option<string> {
    match title
    case None => None
    case Some(t) => Some(Lower(t))
  }

  /** The comparison `find` applies: lower-cased titles are equal, or both are absent. */
  predicate TitleMatches(c: Character, title: Option<string>) {
    TitleKey(c.title) == TitleKey(title)
  }

  /** The index of the first character whose title matches, or `|catalog|`. */
  function FirstMatch(catalog: seq<Character>, title: Option<string>): (k: nat)
    ensures k <= |catalog|
    ensures forall j :: 0 <= j < k ==> !TitleMatches(catalog[j], title)
    ensures k < |catalog| ==> TitleMatches(catalog[k], title)
  {
    if |catalog| == 0 then 0
    else if TitleMatches(catalog[0], title) then 0
    else 1 + FirstMatch(catalog[1..], title)
  }

  /** `catalog.find(...)`: the first character whose title matches, if any. */
  function Find(catalog: seq<Character>, title: Option<string>): (r: Option<Character>)
    ensures r.None? <==> forall i :: 0 <= i < |catalog| ==> !TitleMatches(catalog[i], title)
    ensures r.Some? ==> exists i :: (0 <= i < |catalog| && catalog[i] == r.value
      && TitleMatches(catalog[i], title)
      && forall j :: 0 <= j < i ==> !TitleMatches(catalog[j], title))
  {
    var k := FirstMatch(catalog, title);
    if k < |catalog| then Some(catalog[k]) else None
  }

  /** `avatarForTitle`: the matching character's avatar, or the default one. */
  function AvatarForTitle(title: Option<string>): string {
    match Find(DefaultCharacters, title)
    case Some(c) => c.avatar.GetOr(DefaultAvatar)
    case None => DefaultAvatar
  }

  /** `promptForTitle`: the matching character's prompt, or the default one. */
  function PromptForTitle(title: Option<string>): string {
    match Find(DefaultCharacters, title)
    case Some(c) => c.prompt
    case None => DefaultPrompt
  }

  /** No two characters of the catalog answer to the same title. */
  predicate DistinctTitles(catalog: seq<Character>) {
    forall i, j :: 0 <= i < j < |catalog| ==> TitleKey(catalog[i].title) != TitleKey(catalog[j].title)
  }

  /** When titles are distinct, looking a character up by its own title finds it. */
  lemma FindOwnTitle(catalog: seq<Character>, i: nat)
    requires DistinctTitles(catalog) && i < |catalog|
    ensures Find(catalog, catalog[i].title) == Some(catalog[i])
  {
    var k := FirstMatch(catalog, catalog[i].title);
    assert TitleMatches(catalog[i], catalog[i].title);
    assert k <= i;
  }

  /** Lookup ignores letter case. */
  lemma FindIgnoresCase(catalog: seq<Character>, a: string, b: string)
    requires SameUpToCase(a, b)
    ensures Find(catalog, Some(a)) == Find(catalog, Some(b))
  {
    LowerIgnoresCase(a, b);
    assert TitleKey(Some(a)) == TitleKey(Some(b));
  }

  /** The four default characters have distinct ids and distinct titles, all present. */
  lemma DefaultsWellFormed()
    ensures forall i, j :: 0 <= i < j < |DefaultCharacters| ==> DefaultCharacters[i].id != DefaultCharacters[j].id
    ensures forall i :: 0 <= i < |DefaultCharacters| ==> DefaultCharacters[i].title.Some? && DefaultCharacters[i].avatar.Some?
    ensures DistinctTitles(DefaultCharacters)
  {
    assert Lower("Grumpy Cat")[0] == 'g' && Lower("Smarty Dog")[0] == 's';
  }

  /**
   * Every default character's title, in any letter case, leads back to that
   * character's avatar and prompt.
   */
  lemma DefaultLookup(i: nat, title: string)
    requires i < |DefaultCharacters| && SameUpToCase(DefaultCharacters[i].title.value, title)
    ensures AvatarForTitle(Some(title)) == DefaultCharacters[i].avatar.value
    ensures PromptForTitle(Some(title)) == DefaultCharacters[i].prompt
  {
    DefaultsWellFormed();
    FindOwnTitle(DefaultCharacters, i);
    FindIgnoresCase(DefaultCharacters, DefaultCharacters[i].title.value, title);
  }

  /** A missing title matches no default character, so both lookups fall back. */
  lemma NoTitleFallsBack()
    ensures AvatarForTitle(None) == DefaultAvatar
    ensures PromptForTitle(None) == DefaultPrompt
  {
    DefaultsWellFormed();
  }

  /** A title that lower-cases to none of the default titles falls back too. */
  lemma UnknownTitleFallsBack(title: string)
    requires forall i :: 0 <= i < |DefaultCharacters| ==> Lower(DefaultCharacters[i].title.value) != Lower(title)
    ensures AvatarForTitle(Some(title)) == DefaultAvatar
    ensures PromptForTitle(Some(title)) == DefaultPrompt
  {
  }
}
