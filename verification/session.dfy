/**
 * A game as the sequence of the player's actions on the page: submitting a
 * word (with the oracle's raw answers for that move), giving up and
 * restarting. The raw answers to the AI's requests pass through the reply
 * filter here, as they do inside the source's `getAIWord`.
 */
module Session {

  import opened Wrappers
  import opened Text
  import opened Oracle
  import opened Game

  datatype Action =
    | Submit(input: String, answer: String, replies: seq<String>)
    | GiveUpGame
    | RestartGame

  /** A submission carries one raw answer for every attempt the AI may make. */
  predicate WellFormed(a: Action) {
    a.Submit? ==> |a.replies| == MaxAttempts
  }

  predicate AllWellFormed(actions: seq<Action>) {
    forall i :: 0 <= i < |actions| ==> WellFormed(actions[i])
  }

  /** The words `getAIWord` returns for a sequence of raw answers. */
  function Offers(replies: seq<String>): (offers: seq<Option<String>>)
    ensures |offers| == |replies|
    ensures OffersAiWords(offers)
  {
    seq(|replies|, i requires 0 <= i < |replies| => FilterReply(replies[i]))
  }

  /** One action on the page. */
  function Step(s: GameState, a: Action): (r: GameState)
    requires WellFormed(a)
    ensures a.Submit? ==>
      r.playerWords == s.playerWords || r.playerWords == s.playerWords + [a.input]
    ensures a.GiveUpGame? ==> r.playerLives == 0 && r.gameOver
    ensures a.RestartGame? ==> r.playerWords == [] && r.aiWords == [] && !r.gameOver
    ensures !a.RestartGame? && s.gameOver ==> r.gameOver
  {
    match a
    case Submit(input, answer, replies) => SubmitWord(s, input, answer, Offers(replies)).state
    case GiveUpGame => GiveUp(s)
    case RestartGame => Restart(s)
  }

  /** The actions in order. Without a restart among them, an ended game stays
      ended and the player's words are only ever extended. */
  function Play(s: GameState, actions: seq<Action>): (r: GameState)
    requires AllWellFormed(actions)
    ensures NoRestart(actions) && s.gameOver ==> r.gameOver
    ensures NoRestart(actions) ==> s.playerWords <= r.playerWords
    decreases |actions|
  {
    if actions == [] then s else Play(Step(s, actions[0]), actions[1..])
  }

  predicate Distinct(words: seq<String>) {
    forall i, j :: 0 <= i < j < |words| ==> words[i] != words[j]
  }

  /**
   * What holds of every state a game can reach: lives never exceed the
   * starting five and are positive while the game is in progress, the player
   * never plays a word twice, every AI word is three or more ASCII letters,
   * and the word to chain from is the AI's latest word or none.
   */
  predicate Inv(s: GameState) {
    && s.playerLives <= InitialLives
    && s.aiLives <= InitialLives
    && (!s.gameOver ==> s.playerLives > 0 && s.aiLives > 0)
    && Distinct(s.playerWords)
    && (forall i :: 0 <= i < |s.aiWords| ==> IsAiWord(s.aiWords[i]))
    && (s.lastAiWord == [] || (s.aiWords != [] && s.lastAiWord == s.aiWords[|s.aiWords| - 1]))
  }

  lemma NewGameSatisfiesInv()
    ensures Inv(NewGame())
  {
  }

  lemma AppendKeepsDistinct(words: seq<String>, w: String)
    requires Distinct(words) && w !in words
    ensures Distinct(words + [w])
  {
    var ws := words + [w];
    forall i, j | 0 <= i < j < |ws| ensures ws[i] != ws[j] {
      if j == |ws| - 1 {
        assert ws[i] in words;
      }
    }
  }

  lemma AppendKeepsAiWords(words: seq<String>, w: String)
    requires forall i :: 0 <= i < |words| ==> IsAiWord(words[i])
    requires IsAiWord(w)
    ensures forall i :: 0 <= i < |words + [w]| ==> IsAiWord((words + [w])[i])
  {
  }

  /** A refused word leaves the board alone and can only cost lives. */
  lemma RefusalKeepsInv(s: GameState, t: GameState)
    requires Inv(s) && SameBoard(t, s) && t.playerLives <= s.playerLives
    requires t.gameOver || (!s.gameOver && t.playerLives > 0)
    ensures Inv(t)
  {
  }

  /** An accepted word is new to the player's list, and the AI either plays a
      filtered word or clears the word to chain from. */
  lemma AcceptanceKeepsInv(s: GameState, t: GameState, input: String)
    requires Inv(s) && input !in s.playerWords
    requires t.playerWords == s.playerWords + [input] && t.playerLives == s.playerLives
    requires t.aiLives <= s.aiLives
    requires t.gameOver || (!s.gameOver && t.aiLives > 0)
    requires || (t.lastAiWord == [] && t.aiWords == s.aiWords)
             || (IsAiWord(t.lastAiWord) && t.aiWords == s.aiWords + [t.lastAiWord])
    ensures Inv(t)
  {
    AppendKeepsDistinct(s.playerWords, input);
    if t.aiWords != s.aiWords {
      AppendKeepsAiWords(s.aiWords, t.lastAiWord);
    }
  }

  /** Every word offered to the AI is one it may legitimately hold. */
  predicate OffersAiWords(offers: seq<Option<String>>) {
    forall i :: 0 <= i < |offers| && offers[i].Some? ==> IsAiWord(offers[i].value)
  }

  /** Accepting a new word keeps the invariant. */
  lemma AcceptKeepsInv(s: GameState, input: String, offers: seq<Option<String>>)
    requires Inv(s) && input !in s.playerWords
    requires |offers| == MaxAttempts && OffersAiWords(offers)
    ensures Inv(Accept(s, input, offers).state)
  {
    var m := Accept(s, input, offers);
    if m.outcome.aiFound {
      assert IsAiWord(m.state.lastAiWord) by {
        assert offers[m.outcome.aiConsulted - 1] == Some(m.state.lastAiWord);
      }
    }
    AcceptanceKeepsInv(s, m.state, input);
  }

  /** A submission keeps the invariant. */
  lemma SubmitKeepsInv(s: GameState, input: String, answer: String, replies: seq<String>)
    requires Inv(s) && |replies| == MaxAttempts
    ensures Inv(SubmitWord(s, input, answer, Offers(replies)).state)
  {
    var offers := Offers(replies);
    var m := SubmitWord(s, input, answer, offers);
    if m.outcome.Accepted? {
      AcceptKeepsInv(s, input, offers);
    } else {
      RefusalKeepsInv(s, m.state);
    }
  }

  /** Every action keeps the invariant. */
  lemma StepKeepsInv(s: GameState, a: Action)
    requires Inv(s) && WellFormed(a)
    ensures Inv(Step(s, a))
  {
    if a.Submit? {
      SubmitKeepsInv(s, a.input, a.answer, a.replies);
    }
  }

  /** Any sequence of actions keeps the invariant. */
  lemma {:induction false} PlayKeepsInv(s: GameState, actions: seq<Action>)
    requires Inv(s) && AllWellFormed(actions)
    ensures Inv(Play(s, actions))
    decreases |actions|
  {
    if actions != [] {
      StepKeepsInv(s, actions[0]);
      PlayKeepsInv(Step(s, actions[0]), actions[1..]);
    }
  }

  /** Every state reachable from the page's initial state satisfies the invariant. */
  lemma ReachableSatisfiesInv(actions: seq<Action>)
    requires AllWellFormed(actions)
    ensures Inv(Play(NewGame(), actions))
  {
    NewGameSatisfiesInv();
    PlayKeepsInv(NewGame(), actions);
  }

  predicate NoRestart(actions: seq<Action>) {
    forall i :: 0 <= i < |actions| ==> !actions[i].RestartGame?
  }

  function MaxZero(n: int): int {
    if n < 0 then 0 else n
  }

  /** One action other than a restart only runs the game down. */
  lemma StepRunsDown(s: GameState, a: Action)
    requires WellFormed(a) && !a.RestartGame?
    ensures s.gameOver ==> Step(s, a).gameOver
    ensures Step(s, a).playerLives <= MaxZero(s.playerLives)
    ensures Step(s, a).aiLives <= s.aiLives
    ensures s.playerWords <= Step(s, a).playerWords
    ensures s.aiWords <= Step(s, a).aiWords
  {
    if a.Submit? {
      var m := SubmitWord(s, a.input, a.answer, Offers(a.replies));
      assert m.outcome.Accepted? ==> m == Accept(s, a.input, Offers(a.replies));
    }
  }

  /**
   * Until a restart, the game only runs down: once over it stays over, lives
   * never grow (except that giving up after the player's lives went below
   * zero sets them back to zero), and both word lists only grow at their
   * ends.
   */
  lemma {:induction false} PlayWithoutRestartOnlyRunsDown(s: GameState, actions: seq<Action>)
    requires AllWellFormed(actions) && NoRestart(actions)
    ensures s.gameOver ==> Play(s, actions).gameOver
    ensures Play(s, actions).playerLives <= MaxZero(s.playerLives)
    ensures Play(s, actions).aiLives <= s.aiLives
    ensures s.playerWords <= Play(s, actions).playerWords
    ensures s.aiWords <= Play(s, actions).aiWords
    decreases |actions|
  {
    if actions != [] {
      StepRunsDown(s, actions[0]);
      PlayWithoutRestartOnlyRunsDown(Step(s, actions[0]), actions[1..]);
    }
  }
}
