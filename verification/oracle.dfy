/**
 * Post-processing of the language model's free-text answers. The requests
 * themselves are network calls and are not part of this model: each raw
 * answer arrives here as a plain string.
 */
module Oracle {

  import opened Wrappers
  import opened Text

  /** The answer the model is told to give when it has no word. */
  const NotFound: String := "word not found"

  /** The shortest word the AI may play. */
  const MinWordLength: nat := 3

  /** A word the AI may play: three or more characters, all ASCII letters. */
  predicate IsAiWord(w: String) {
    |w| >= MinWordLength && AllLetters(w)
  }

  /** The characters `[.,!?;:]` stripped from the end of an AI answer. */
  predicate IsReplyPunct(c: char) {
    c == '.' || c == ',' || c == '!' || c == '?' || c == ';' || c == ':'
  }

  predicate NotSpace(c: char) {
    !IsSpace(c)
  }

  /** The answer after `trim()` and the removal of its trailing punctuation run. */
  function Cleaned(raw: String): (r: String)
    ensures r <= Trim(raw)
    ensures forall i :: |r| <= i < |Trim(raw)| ==> IsReplyPunct(Trim(raw)[i])
    ensures r == [] || !IsReplyPunct(r[|r| - 1])
  {
    DropLastWhile(Trim(raw), IsReplyPunct)
  }

  /**
   * The word the AI plays for a raw answer, or None: the first
   * whitespace-delimited token of the cleaned answer, kept only when it has
   * at least three characters, all ASCII letters, and the cleaned answer is
   * not "word not found" in any letter case.
   */
  function FilterReply(raw: String): (r: Option<String>)
    ensures r.Some? ==> IsAiWord(r.value)
    ensures r.Some? ==> r.value <= Cleaned(raw) <= Trim(raw)
    ensures r.Some? ==> |r.value| == |Cleaned(raw)| || IsSpace(Cleaned(raw)[|r.value|])
    ensures Lower(Cleaned(raw)) == NotFound ==> r.None?
  {
    var cleaned := Cleaned(raw);
    if Lower(cleaned) == NotFound then None
    else
      var word := TakeWhile(cleaned, NotSpace);
      if IsAiWord(word) then Some(word) else None
  }

  /** A word of three or more ASCII letters cannot read "word not found",
      which holds spaces. */
  lemma LetterWordIsNotNotFound(w: String)
    requires AllLetters(w)
    ensures Lower(w) != NotFound
  {
    if |w| == |NotFound| {
      assert Lower(w)[4] == LowerChar(w[4]);
      assert NotFound[4] == ' ';
    }
  }

  /** An answer that is exactly a word of three or more ASCII letters is
      played as it is. */
  lemma FilterAcceptsWord(w: String)
    requires IsAiWord(w)
    ensures FilterReply(w) == Some(w)
  {
    LetterWordIsClean(w);
    LetterWordIsNotNotFound(w);
    LetterWordIsOneToken(w);
  }

  /** Cleaning leaves a non-empty word of ASCII letters unchanged. */
  lemma LetterWordIsClean(w: String)
    requires |w| > 0 && AllLetters(w)
    ensures Cleaned(w) == w
  {
  }

  /** A word of ASCII letters is a single whitespace-delimited token. */
  lemma LetterWordIsOneToken(w: String)
    requires AllLetters(w)
    ensures TakeWhile(w, NotSpace) == w
  {
  }

  /** The filter is idempotent on the words it returns. */
  lemma FilterIdempotent(raw: String)
    requires FilterReply(raw).Some?
    ensures FilterReply(FilterReply(raw).value) == FilterReply(raw)
  {
    FilterAcceptsWord(FilterReply(raw).value);
  }

  /** Cleaning removes the whitespace around an answer and the run of
      `.,!?;:` at its end, and nothing else, when the core of the answer does
      not itself end in one of those characters. */
  lemma CleanedDecorated(lead: String, core: String, punct: String, tail: String)
    requires |core| > 0 && !IsSpace(core[0]) && !IsSpace(core[|core| - 1])
    requires !IsReplyPunct(core[|core| - 1])
    requires forall i :: 0 <= i < |punct| ==> IsReplyPunct(punct[i])
    requires AllSpace(lead) && AllSpace(tail)
    ensures Cleaned(lead + core + punct + tail) == core
  {
    var body := core + punct;
    assert body[0] == core[0];
    if punct != [] {
      assert body[|body| - 1] == punct[|punct| - 1];
    } else {
      assert body[|body| - 1] == core[|core| - 1];
    }
    assert lead + core + punct + tail == lead + body + tail;
    TrimExactly(lead, body, tail);
    forall i | |core| <= i < |body| ensures IsReplyPunct(body[i]) {
      assert body[i] == punct[i - |core|];
    }
    assert body[|core| - 1] == core[|core| - 1];
    DropLastWhileExactly(body, IsReplyPunct, |core|);
    assert body[..|core|] == core;
  }

  /** Surrounding whitespace and a trailing run of `.,!?;:` around a word are
      discarded: "  Dogma!? " is played as "Dogma". */
  lemma FilterStripsDecoration(lead: String, w: String, punct: String, tail: String)
    requires IsAiWord(w)
    requires forall i :: 0 <= i < |punct| ==> IsReplyPunct(punct[i])
    requires AllSpace(lead) && AllSpace(tail)
    ensures FilterReply(lead + w + punct + tail) == Some(w)
  {
    CleanedDecorated(lead, w, punct, tail);
    LetterWordIsClean(w);
    FilterAcceptsWord(w);
  }

  /** A word of letters at the front of a text, followed by whitespace or the
      end, is the text's first token. */
  lemma FirstTokenIs(c: String, w: String)
    requires AllLetters(w) && w <= c
    requires |w| == |c| || IsSpace(c[|w|])
    ensures TakeWhile(c, NotSpace) == w
  {
    forall i | 0 <= i < |w| ensures NotSpace(c[i]) {
      assert c[i] == w[i];
    }
    TakeWhileExactly(c, NotSpace, |w|);
    assert c[..|w|] == w;
  }

  /** Whenever the first token of the cleaned answer is a word of three or
      more ASCII letters and the cleaned answer is not "word not found", that
      word is played: the converse of `FilterReply`'s contract. */
  lemma FilterFindsFirstToken(raw: String, w: String)
    requires IsAiWord(w)
    requires w <= Cleaned(raw)
    requires |w| == |Cleaned(raw)| || IsSpace(Cleaned(raw)[|w|])
    requires Lower(Cleaned(raw)) != NotFound
    ensures FilterReply(raw) == Some(w)
  {
    FirstTokenIs(Cleaned(raw), w);
  }

  /** Every letter-case spelling of "word not found", with any whitespace and
      trailing punctuation around it, yields no word. */
  lemma FilterRejectsNotFound(lead: String, phrase: String, punct: String, tail: String)
    requires Lower(phrase) == NotFound
    requires forall i :: 0 <= i < |punct| ==> IsReplyPunct(punct[i])
    requires AllSpace(lead) && AllSpace(tail)
    ensures FilterReply(lead + phrase + punct + tail).None?
  {
    assert |phrase| == |NotFound|;
    assert LowerChar(phrase[0]) == 'w' && LowerChar(phrase[13]) == 'd';
    CleanedDecorated(lead, phrase, punct, tail);
  }

  /** The validation answer means "valid" when, trimmed and lower-cased, it is
      exactly "yes". */
  predicate IsAffirmative(answer: String): (yes: bool)
    ensures yes <==>
      var t := Trim(answer);
      |t| == 3 && t[0] in "yY" && t[1] in "eE" && t[2] in "sS"
  {
    Lower(Trim(answer)) == "yes"
  }

  /** Whitespace around a "yes" in any letter case is ignored. */
  lemma AffirmativeIgnoresWhitespace(lead: String, yes: String, tail: String)
    requires AllSpace(lead) && AllSpace(tail)
    requires |yes| == 3 && yes[0] in "yY" && yes[1] in "eE" && yes[2] in "sS"
    ensures IsAffirmative(lead + yes + tail)
  {
    TrimExactly(lead, yes, tail);
  }

  /** "Yes." is not an affirmative answer: the full stop is not trimmed. */
  lemma YesWithStopIsRefused()
    ensures !IsAffirmative("Yes.")
  {
  }

  lemma PaddedUpperYesIsAccepted()
    ensures IsAffirmative(" YES\n")
  {
    assert " YES\n" == " " + "YES" + "\n";
    AffirmativeIgnoresWhitespace(" ", "YES", "\n");
  }

  lemma NotFoundWithStopIsFiltered()
    ensures FilterReply("Word not found.").None?
  {
    assert "Word not found." == [] + "Word not found" + "." + [];
    FilterRejectsNotFound([], "Word not found", ".", []);
  }

  lemma DecoratedWordIsFiltered()
    ensures FilterReply(" dogma! ") == Some("dogma")
  {
    assert " dogma! " == " " + "dogma" + "!" + " ";
    FilterStripsDecoration(" ", "dogma", "!", " ");
  }

  /** The words of a reply: a first word, a space, and more text that neither
      ends in whitespace nor in `.,!?;:`. */
  lemma SpacedWords(w: String, rest: String)
    requires |w| > 0 && AllLetters(w)
    requires rest != [] && !IsSpace(rest[|rest| - 1]) && !IsReplyPunct(rest[|rest| - 1])
    ensures var core := w + " " + rest;
      && |core| > 0 && !IsSpace(core[0]) && !IsSpace(core[|core| - 1])
      && !IsReplyPunct(core[|core| - 1])
      && w <= core && IsSpace(core[|w|])
  {
    var core := w + " " + rest;
    assert core[0] == w[0] && core[|core| - 1] == rest[|rest| - 1];
    assert core[|w|] == ' ';
  }

  /** A reply of several words is played as its first word, when that word
      has three or more ASCII letters, whatever whitespace surrounds the reply
      and whatever run of `.,!?;:` ends it: "Dog is here." gives "Dog". */
  lemma FilterTakesFirstToken(lead: String, w: String, rest: String, punct: String, tail: String)
    requires IsAiWord(w)
    requires rest != [] && !IsSpace(rest[|rest| - 1]) && !IsReplyPunct(rest[|rest| - 1])
    requires forall i :: 0 <= i < |punct| ==> IsReplyPunct(punct[i])
    requires AllSpace(lead) && AllSpace(tail)
    requires Lower(w + " " + rest) != NotFound
    ensures FilterReply(lead + (w + " " + rest) + punct + tail) == Some(w)
  {
    var core := w + " " + rest;
    SpacedWords(w, rest);
    CleanedDecorated(lead, core, punct, tail);
    FilterFindsFirstToken(lead + core + punct + tail, w);
  }

  /** "Dog is here." is played as "Dog". */
  lemma SentenceReplyIsFiltered()
    ensures FilterReply("Dog is here.") == Some("Dog")
  {
    assert "Dog is here." == [] + ("Dog" + " " + "is here") + "." + [];
    assert Lower("Dog is here") != NotFound by {
      assert |"Dog is here"| != |NotFound|;
    }
    FilterTakesFirstToken([], "Dog", "is here", ".", []);
  }
}
