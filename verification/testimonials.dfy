/** The testimonial cards built from fetched comments: the author name
    derived from the email address and the excerpt of the body. */
module Testimonials {
  import opened Wrappers
  import opened Seqs
  import opened Text

  const EXCERPT_LENGTH: nat := 150
  const ELLIPSIS: string := "..."
  const LOAD_ERROR: string := "Unable to load testimonials at this time. Please try again later."

  /** A comment as the placeholder service returns it (only the fields the
      card reads). */
  datatype Comment = Comment(email: string, body: string)

  /** The body shown on a card: longer than 150 characters, it is cut to its
      first 150 and followed by an ellipsis. */
  function Excerpt(body: string): (r: string)
    ensures |body| <= EXCERPT_LENGTH ==> r == body
    ensures |body| > EXCERPT_LENGTH ==> |r| == EXCERPT_LENGTH + |ELLIPSIS| &&
                                        r[..EXCERPT_LENGTH] == body[..EXCERPT_LENGTH] &&
                                        r[EXCERPT_LENGTH..] == ELLIPSIS
  {
    if |body| > EXCERPT_LENGTH then body[..EXCERPT_LENGTH] + ELLIPSIS else body
  }

  /** Excerpts are at most 153 characters long, and cutting an excerpt again
      changes nothing. */
  lemma ExcerptIdempotent(body: string)
    ensures |Excerpt(body)| <= EXCERPT_LENGTH + |ELLIPSIS|
    ensures Excerpt(Excerpt(body)) == Excerpt(body)
  {
  }

  /** `email.split('@')[0]`: the text before the first `@`, or the whole
      address when there is none. */
  function LocalPart(email: string): (r: string)
    ensures |r| <= |email| && email[..|r|] == r
    ensures '@' !in r
    ensures |r| < |email| ==> email[|r|] == '@'
  {
    SplitFirstPart(email, '@');
    Split(email, '@')[0]
  }

  /** `word.charAt(0).toUpperCase() + word.slice(1)`. */
  function Capitalize(word: string): (r: string)
    ensures |r| == |word|
    ensures |word| > 0 ==> r[0] == UpperChar(word[0]) && r[1..] == word[1..]
  {
    if |word| == 0 then "" else [UpperChar(word[0])] + word[1..]
  }

  function CapitalizeAll(words: seq<string>): (r: seq<string>)
    ensures |r| == |words|
    ensures forall i :: 0 <= i < |words| ==> r[i] == Capitalize(words[i])
  {
    seq(|words|, i requires 0 <= i < |words| => Capitalize(words[i]))
  }

  /** The author name on a card: the local part split at dots, each word
      capitalised, joined by spaces. It reads the local part one character at
      a time: dots become spaces and each word's first letter is upper-cased. */
  function DisplayName(email: string): (r: string)
    ensures r == TitleCase(LocalPart(email), true)
  {
    var local := LocalPart(email);
    JoinCapitalized(Split(local, '.'));
    JoinSplit(local, '.');
    Join(CapitalizeAll(Split(local, '.')), ' ')
  }

  /** An independent reading of the same name, one character at a time: a dot
      becomes a space, and a character that starts a word is upper-cased. */
  function TitleCase(s: string, atWordStart: bool): (r: string)
    ensures |r| == |s|
    decreases |s|
  {
    if |s| == 0 then ""
    else if s[0] == '.' then " " + TitleCase(s[1..], true)
    else [if atWordStart then UpperChar(s[0]) else s[0]] + TitleCase(s[1..], false)
  }

  /** Inside a word nothing changes. */
  lemma {:induction false} TitleCaseInsideWord(w: string)
    requires '.' !in w
    ensures TitleCase(w, false) == w
    decreases |w|
  {
    if |w| > 0 {
      TitleCaseInsideWord(w[1..]);
      assert [w[0]] + w[1..] == w;
    }
  }

  /** A word followed by a dot and more text. */
  lemma {:induction false} TitleCaseAcrossDot(w: string, rest: string, atWordStart: bool)
    requires '.' !in w
    ensures TitleCase(w + "." + rest, atWordStart) == TitleCase(w, atWordStart) + " " + TitleCase(rest, true)
    decreases |w|
  {
    if |w| == 0 {
      assert w + "." + rest == "." + rest;
    } else {
      assert (w + "." + rest)[1..] == w[1..] + "." + rest;
      TitleCaseAcrossDot(w[1..], rest, false);
    }
  }

  /** A single word is capitalised. */
  lemma TitleCaseOfWord(w: string)
    requires '.' !in w
    ensures TitleCase(w, true) == Capitalize(w)
  {
    if |w| > 0 {
      TitleCaseInsideWord(w[1..]);
    }
  }

  /** Capitalising dot-free words and joining them with spaces is reading
      their dot-joined text with `TitleCase`. */
  lemma {:induction false} JoinCapitalized(words: seq<string>)
    requires |words| >= 1
    requires forall k :: 0 <= k < |words| ==> '.' !in words[k]
    ensures Join(CapitalizeAll(words), ' ') == TitleCase(Join(words, '.'), true)
    decreases |words|
  {
    TitleCaseOfWord(words[0]);
    if |words| > 1 {
      var rest := words[1..];
      JoinCapitalized(rest);
      assert CapitalizeAll(words)[1..] == CapitalizeAll(rest);
      TitleCaseAcrossDot(words[0], Join(rest, '.'), true);
    }
  }

  /** The name is the local part with every dot turned into a space and the
      first letter of every word upper-cased; in particular it is exactly as
      long as the local part. */
  lemma DisplayNameIsTitleCase(email: string)
    ensures DisplayName(email) == TitleCase(LocalPart(email), true)
    ensures |DisplayName(email)| == |LocalPart(email)|
  {
    var local := LocalPart(email);
    JoinCapitalized(Split(local, '.'));
    JoinSplit(local, '.');
  }

  /** The local part of an address is what precedes its first `@`. */
  lemma LocalPartExample()
    ensures LocalPart("jo.li@x.io") == "jo.li"
  {
    assert "jo.li@x.io"[5] == '@';
  }

  /** Two dotted words become two capitalised words. */
  lemma TitleCaseExample()
    ensures TitleCase("jo.li", true) == "Jo Li"
  {
    assert "jo.li" == "jo" + "." + "li";
    TitleCaseAcrossDot("jo", "li", true);
    TitleCaseOfWord("jo");
    TitleCaseOfWord("li");
    assert Capitalize("jo") == "Jo";
    assert Capitalize("li") == "Li";
  }

  lemma DisplayNameExample()
    ensures DisplayName("jo.li@x.io") == "Jo Li"
  {
    DisplayNameIsTitleCase("jo.li@x.io");
    LocalPartExample();
    TitleCaseExample();
  }

  /** A card: the excerpt, the derived name, and the fixed "Client" line. */
  datatype Card = Card(body: string, name: string, company: string)

  function CreateCard(c: Comment): (card: Card)
    ensures card.body == Excerpt(c.body) && card.name == DisplayName(c.email) && card.company == "Client"
  {
    Card(Excerpt(c.body), DisplayName(c.email), "Client")
  }

  /** The container's content after loading: the cards in the order of the
      comments, or the error paragraph when the request fails (the response
      is `None`). */
  datatype Loaded = Cards(cards: seq<Card>) | LoadFailed(message: string)

  function LoadTestimonials(response: Option<seq<Comment>>): (r: Loaded)
    ensures response.None? <==> r == LoadFailed(LOAD_ERROR)
    ensures response.Some? ==> r.Cards? && |r.cards| == |response.value| &&
                               forall i :: 0 <= i < |r.cards| ==> r.cards[i] == CreateCard(response.value[i])
  {
    match response
    case None => LoadFailed(LOAD_ERROR)
    case Some(comments) => Cards(seq(|comments|, i requires 0 <= i < |comments| => CreateCard(comments[i])))
  }
}
