# Fazan: the turn engine of a human-vs-AI word-chaining game

Fazan is a browser game. The player and an AI take turns naming words, and
each word must begin with the last two letters of the opponent's previous
word. A language model does the judging. It answers "is this a valid English
word?" for the player's words, and it supplies the AI's words.

This project models the game logic of `FazanGame/script.js` as pure Dafny
functions over an immutable game state:

- the player's move (`submitWord`): validity, then reuse, then chaining;
  the first failure wins;
- the AI's turn (`aiTryToFindWord`): a loop of at most two attempts, where
  every failed attempt costs the AI a life;
- the game-over test (`updateGameInfo`), giving up (`giveUp`) and
  restarting (`restartGame`);
- the two string post-processors that turn the language model's free-text
  answers into decisions. One is the reply filter in `getAIWord`. The other
  is the yes/no parse in `validatePlayerWord`.

Every answer of the language model is a parameter. `Game.SubmitWord` takes
three things:

- the raw answer to the validity question;
- the AI's candidate words, already filtered, one per attempt the AI may
  make (`getAIWord` returns the filtered word or `null`);
- the state and the player's input.

`Session.Step` feeds raw AI answers through `Oracle.FilterReply`, just as
`getAIWord` does.

Modules:

- `Wrappers`: `Option`.
- `Text`: JavaScript's `trim`, `slice(-2)`, `toLowerCase`, `\s` and
  `[a-zA-Z]` on `seq<char>`. Whitespace and case folding are ASCII.
- `Oracle`: `FilterReply` (the post-filter of `getAIWord`) and
  `IsAffirmative` (the answer parse of `validatePlayerWord`).
- `Game`: `GameState`, `SubmitWord`, the AI loop (`AiLoop`, plus the loop
  method `RunAiTurn` proved equal to it), `UpdateGameInfo`, `GiveUp` and
  `Restart`.
- `Session`: a game as a sequence of user actions, and the invariants that
  every reachable state satisfies.

The model follows the code, in particular:

- The AI's word is never checked against the words already used or against
  the required prefix (script.js:73-78 only tests that a word came back). So
  `aiWords` may hold a duplicate, or a word the player already played.
- Submissions are not refused after the game is over. Ending the game only
  disables the input. The global Enter listener (script.js:55-59) still calls
  `submitWord`. `SubmitWord` therefore has no "game in progress"
  precondition. The lives keep falling and can go below zero. The
  invariant in `Session.Inv` requires positive lives only while the game is
  not over.
- Already-used words are checked against two lists, `aiWords` and
  `playerWords`, not against one set. The comparison is case-sensitive.
- The end of the game is one flag, `gameOver`. Winning, losing and giving up
  are not separate phases. A failed request to the model is not treated as
  "invalid": it throws (see Left out).

## Model

| member | source | states |
|---|---|---|
| Text.DropLeadingSpace | FazanGame/script.js:124 | the leading half of `trim` removes exactly a whitespace run in front of a part that does not begin with whitespace |
| Text.DropTrailingSpace | FazanGame/script.js:124 | the trailing half of `trim` removes exactly a whitespace run after a part that does not end in whitespace |
| Text.TrimExactly | FazanGame/script.js:124 | `trim` removes exactly the whitespace around a core that neither starts nor ends with whitespace |
| Text.DropLastWhile | FazanGame/script.js:127 | `replace(/[.,!?;:]*$/, "")` keeps a prefix, removes only stripped characters, and leaves no stripped character at the end (the longest trailing run goes) |
| Text.DropWhileExactly | FazanGame/script.js:124 | when the first `k` characters are whitespace and the next is not, the leading-whitespace half of `trim` keeps exactly the rest from position `k` |
| Text.TakeWhileExactly | FazanGame/script.js:133 | a whitespace-free run followed by whitespace is exactly the first token `split(/\s+/)[0]` returns |
| Text.LastTwoOfSuffix | FazanGame/script.js:31 | a string ending in two given characters has exactly those as its `slice(-2)`, whatever precedes them |
| Text.Trim | FazanGame/script.js:124 | `trim` leaves no whitespace at either end and never lengthens the answer |
| Text.Lower | FazanGame/script.js:128 | `toLowerCase` keeps the length, maps each A-Z to its lower-case letter, leaves no upper-case ASCII letter and keeps every other character |
| Text.TakeWhile | FazanGame/script.js:133 | `split(/\s+/)[0]` is the longest whitespace-free prefix: the result is a prefix, has no whitespace, and is followed by whitespace or the end |
| Text.LastTwo | FazanGame/script.js:31 | `slice(-2)` is the last two characters, or the whole string when it is shorter than two |
| Oracle.Cleaned | FazanGame/script.js:124-127 | the cleaned answer is a prefix of the trimmed answer; what was cut is all `.,!?;:`, and the result does not end in one of them |
| Oracle.FilterReply | FazanGame/script.js:124-137 | a returned word has at least 3 characters, all ASCII letters; it is the first token of the trimmed, punctuation-stripped answer; "word not found" in any case gives none |
| Oracle.FilterAcceptsWord | FazanGame/script.js:132-137 | an answer that is exactly a word of 3 or more ASCII letters is played unchanged |
| Oracle.FilterIdempotent | FazanGame/script.js:124-137 | filtering a word the filter returned gives back the same word |
| Oracle.FilterFindsFirstToken | FazanGame/script.js:124-137 | for every answer: when the first whitespace-delimited token of the trimmed, punctuation-stripped answer has at least three characters, all ASCII letters, and the stripped answer is not "word not found" in any case, that token is the word played |
| Oracle.FilterTakesFirstToken | FazanGame/script.js:124-137 | an answer of several words, with any whitespace around it and any run of `.,!?;:` at its end, is played as its first word when that word has at least three ASCII letters and the answer is not "word not found" in any letter case |
| Oracle.SentenceReplyIsFiltered | FazanGame/script.js:124-137 | the answer "Dog is here." gives the word "Dog" |
| Oracle.FilterStripsDecoration | FazanGame/script.js:124-137 | surrounding whitespace and a trailing run of `.,!?;:` around a letter word are discarded |
| Oracle.FilterRejectsNotFound | FazanGame/script.js:127-130 | "word not found" in any letter case, with any surrounding whitespace and trailing punctuation, yields no word |
| Oracle.DecoratedWordIsFiltered | FazanGame/script.js:124-137 | the answer " dogma! " gives the word "dogma" |
| Oracle.NotFoundWithStopIsFiltered | FazanGame/script.js:127-130 | the answer "Word not found." gives no word |
| Oracle.IsAffirmative | FazanGame/script.js:158-160 | the answer means valid exactly when its trimmed form is "yes" in some letter case |
| Oracle.AffirmativeIgnoresWhitespace | FazanGame/script.js:158-160 | whitespace around "yes" in any case is ignored |
| Oracle.YesWithStopIsRefused | FazanGame/script.js:158-160 | "Yes." is not an affirmative answer |
| Oracle.PaddedUpperYesIsAccepted | FazanGame/script.js:158-160 | " YES\n" is an affirmative answer |
| Game.NewGame | FazanGame/script.js:3-7 | the page starts with 5 lives each, no words, no AI word, and the game in progress |
| Game.EndGame | FazanGame/script.js:200-205 | ending the game sets the game-over flag and changes nothing else |
| Game.UpdateGameInfo | FazanGame/script.js:163-171 | the game ends exactly when the player has no lives left, and nothing else changes |
| Game.GiveUp | FazanGame/script.js:193-198 | giving up sets the player's lives to 0 and ends the game; the board is untouched |
| Game.Restart | FazanGame/script.js:207-212 | whatever the prior state, the result has 5/5 lives, empty lists, no AI word, and the game not over |
| Game.AiLoop | FazanGame/script.js:61-101 | the AI reads at most one answer per attempt; if attempt k succeeds, the AI loses k-1 lives and the word is appended and becomes the word to chain from; each failure costs one life; the loop stops early once the AI has no lives left, which ends the game |
| Game.RunAiTurn | FazanGame/script.js:61-101 | the source's two-attempt counter loop computes exactly the AI turn `AiLoop` describes |
| Game.LoseLife | FazanGame/script.js:15-20 | a refusal that costs a life takes exactly one life, leaves the board alone, and ends the game exactly when no life is left |
| Game.Accept | FazanGame/script.js:39-101 | an accepted word is appended once; the AI plays the first word it is offered and gives up only after its last attempt or its last life; the AI is asked for the word's last two characters; a word the AI finds becomes the word to chain from and costs the AI one life per earlier failed attempt; when the AI fails, the word to chain from is cleared and the AI lost one life per attempt; the game ends exactly when the AI runs out of lives |
| Game.SubmitWord | FazanGame/script.js:9-53 | checks run in order and the first failure wins: a word the oracle refuses costs exactly one life and nothing else, even if it was used before; a used word changes nothing; a word that does not chain costs exactly one life; a word is accepted exactly when all three checks pass, so it was in neither list; no move undoes the end of the game |
| Game.ChainsFrom | FazanGame/script.js:31 | with no AI word any input chains; after a one-letter AI word the input must start with that letter; otherwise the input's first two characters must be the AI word's last two |
| Game.ChainExamples | FazanGame/script.js:31 | after "ado", "dog" chains and "cat" does not; after "a" the prefix is "a"; with no AI word anything chains |
| Session.Step | FazanGame/script.js:55-59 | a submission leaves the player's words alone or appends the input; giving up leaves 0 lives and ends the game; a restart clears both lists and resumes play; nothing but a restart undoes the end of the game |
| Session.Play | FazanGame/script.js:55-59 | without a restart, an ended game stays ended and the player's words are only extended |
| Session.Offers | FazanGame/script.js:70 | every word the AI is offered has at least 3 characters, all ASCII letters |
| Session.AppendKeepsDistinct | FazanGame/script.js:24 | appending a word not already in the list keeps the list free of duplicates |
| Session.RefusalKeepsInv | FazanGame/script.js:13-37 | a refusal keeps the invariant: the board is untouched and lives only fall, with the game ending when none are left |
| Session.AcceptanceKeepsInv | FazanGame/script.js:39-49 | a new player word plus either a filtered AI word or a cleared chain word keeps the invariant |
| Session.AcceptKeepsInv | FazanGame/script.js:39-49 | accepting a word that is not yet in the player's list keeps the invariant, given that the AI is offered only filtered words |
| Session.SubmitKeepsInv | FazanGame/script.js:9-53 | a submission keeps the invariant: lives at most 5 and positive while in progress, no duplicate player words, AI words of 3+ letters, and the word to chain from is the AI's latest word or none |
| Session.StepKeepsInv | FazanGame/script.js:193-212 | submitting, giving up and restarting each keep the invariant |
| Session.PlayKeepsInv | FazanGame/script.js:9-53 | any sequence of actions keeps the invariant |
| Session.ReachableSatisfiesInv | FazanGame/script.js:3-7 | every state reachable from the initial state satisfies the invariant |
| Session.StepRunsDown | FazanGame/script.js:15-49 | one submission or give-up never revives the game, never raises a life count (except a give-up after the player's lives went below zero), and only appends to the word lists |
| Session.PlayWithoutRestartOnlyRunsDown | FazanGame/script.js:15-49 | until a restart, game over stays over, lives never grow, and both word lists only grow at their ends |

## Left out

- The `fetch` calls, the JSON decoding (`data.choices[0].message.content`)
  and the API key. These are network I/O. Each model answer is a parameter
  (`answer`, `offers`, `replies`).
- Prompt construction (script.js:104-108, 142). It is free text. The required
  prefix it embeds is recorded as `Accepted.aiPrefix` but has no other effect.
- Failed requests and malformed responses. The code throws uncaught
  exceptions there, so those paths are not modelled. Every answer is assumed
  to arrive. This is why `SubmitWord` requires one AI answer per possible
  attempt (`|offers| == MaxAttempts`).
- DOM work: `updateUsedWords`, `updatePlayerWords`, feedback text and the
  `keydown` listener. `endGame` is reduced to the `gameOver` flag. The
  restart and give-up buttons' visibility is not modelled, so
  `Session.Play` allows any action in any state.
- `setTimeout` pauses and `async`/`await` interleaving. The model assumes
  each submission finishes before the next starts; the code does not enforce
  this, since the Enter listener can call `submitWord` again while an
  earlier call is still awaiting an answer.
- Unicode in `trim`, `\s` and `toLowerCase`. Whitespace is the ASCII set
  (space and characters 9-13), and case folding maps only A-Z.
- JavaScript's `length` and `slice(-2)` count UTF-16 code units; the model
  counts characters. Only the recorded `Accepted.aiPrefix` and the chaining
  test can differ, and only for characters outside the Basic Multilingual
  Plane.
- Text.Trim: its own contract states only that the result has no outer
  whitespace and is no longer than the input. The full characterisation is
  `Text.TrimExactly`.
- Session.StepRunsDown and Session.PlayWithoutRestartOnlyRunsDown: the bound on the player's lives is
  zero, not the old value, when the lives were already below zero. Giving up
  after a game that ran on past its end sets them back to zero.
