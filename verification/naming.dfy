/**
 Display names and note templating, as both send flows use them.

 The list flow takes the first space-separated word of the profile headline
 as is, falling back to "there" when the headline cannot be read. The search
 flow title-cases the first word of the link text; its third locating
 strategy prefers the link's accessibility label and falls back to "Unknown"
 when both the label and the text are empty.
 */
module Naming {
  import opened Options
  import opened Text

  const NamePlaceholder := "{name}"
  const FullNamePlaceholder := "{fullName}"

  /** `letter.replace("{name}", name).replace("{fullName}", name)`. */
  function Personalize(letter: string, name: string): (note: string)
    ensures note == Join(name, SplitOn(Join(name, SplitOn(letter, NamePlaceholder)), FullNamePlaceholder))
  {
    var first := Replace(letter, NamePlaceholder, name);
    ReplaceIsJoinOfSplit(letter, NamePlaceholder, name);
    ReplaceIsJoinOfSplit(first, FullNamePlaceholder, name);
    Replace(first, FullNamePlaceholder, name)
  }

  /** A template that mentions neither placeholder is sent as written. */
  lemma PersonalizeWithoutPlaceholders(letter: string, name: string)
    requires !Contains(letter, NamePlaceholder) && !Contains(letter, FullNamePlaceholder)
    ensures Personalize(letter, name) == letter
  {
  }

  /** Templating cuts the letter at every `{name}` and glues the name in, then
      does the same for every `{fullName}` of that text; no cut-out piece
      still holds the placeholder it was cut at. */
  lemma PersonalizeCutsAtEveryPlaceholder(letter: string, name: string)
    ensures var first := Join(name, SplitOn(letter, NamePlaceholder));
      && Personalize(letter, name) == Join(name, SplitOn(first, FullNamePlaceholder))
      && (forall i :: 0 <= i < |SplitOn(letter, NamePlaceholder)| ==>
            !Contains(SplitOn(letter, NamePlaceholder)[i], NamePlaceholder))
      && (forall i :: 0 <= i < |SplitOn(first, FullNamePlaceholder)| ==>
            !Contains(SplitOn(first, FullNamePlaceholder)[i], FullNamePlaceholder))
  {
    var first := Join(name, SplitOn(letter, NamePlaceholder));
    ReplaceIsJoinOfSplit(letter, NamePlaceholder, name);
    ReplaceIsJoinOfSplit(first, FullNamePlaceholder, name);
    SplitPiecesFree(letter, NamePlaceholder);
    SplitPiecesFree(first, FullNamePlaceholder);
  }

  /* ---------------------------------------------------------------------
     Names
     --------------------------------------------------------------------- */

  /** List flow: `name_elem.text.split(' ')[0]`, or "there" when finding the
      headline or reading its text raised. */
  function HeadlineName(headline: Option<string>): (name: string)
    ensures headline.None? ==> name == "there"
    ensures headline.Some? ==> name <= headline.value && ' ' !in name
    ensures headline.Some? && |name| < |headline.value| ==> headline.value[|name|] == ' '
  {
    match headline
    case None => "there"
    case Some(text) =>
      SplitFirstPieceIsFirstWord(text);
      SplitOn(text, " ")[0]
  }

  /** Search flow, first and second strategies:
      `text.split(' ')[0].title()`. */
  function TitledFirstWord(text: string): (name: string)
    ensures ' ' !in name
    ensures Lower(name) == Lower(FirstWord(text))
    ensures TitleCase(name) == name
  {
    SplitFirstPieceIsFirstWord(text);
    var word := SplitOn(text, " ")[0];
    TitleCaseKeepsText(word);
    TitleCaseIdempotent(word);
    TitleCase(word)
  }

  /** Search flow, third strategy: `aria-label or text`, then the titled
      first word when that is non-empty and "Unknown" otherwise. A missing
      label reads as "", which Python treats the same way as None here. */
  function LabelOrTextName(ariaLabel: string, text: string): (name: string)
    ensures ariaLabel == "" && text == "" ==> name == "Unknown"
    ensures ariaLabel != "" ==> Lower(name) == Lower(FirstWord(ariaLabel))
    ensures ariaLabel == "" && text != "" ==> Lower(name) == Lower(FirstWord(text))
    ensures ' ' !in name
    ensures TitleCase(name) == name
  {
    var shown := if ariaLabel != "" then ariaLabel else text;
    if shown != "" then TitledFirstWord(shown)
    else
      UnknownIsTitled();
      "Unknown"
  }

  /** The placeholder name reads the same title-cased. */
  lemma UnknownIsTitled()
    ensures TitleCase("Unknown") == "Unknown"
  {
    var u := "Unknown";
    var t := TitleCase(u);
    assert t[0] == ToUpper(u[0]) == 'U';
    forall i | 1 <= i < 7 ensures t[i] == u[i] {
      assert IsCased(u[i - 1]) && IsLower(u[i]);
    }
  }

  /** Reading the first word of an empty headline gives the empty name, not
      the fallback "there"; the search flow's third strategy is the only one
      that substitutes a placeholder name for empty text. */
  lemma EmptyTextNames()
    ensures HeadlineName(Some("")) == ""
    ensures HeadlineName(Some("Ada Lovelace")) == "Ada"
    ensures TitledFirstWord("") == ""
    ensures LabelOrTextName("", "") == "Unknown"
  {
    var text := "Ada Lovelace";
    var name := HeadlineName(Some(text));
    assert text[0] != ' ' && text[1] != ' ' && text[2] != ' ' && text[3] == ' ';
    assert |name| == 3;
    assert name == text[..3];
  }
}
