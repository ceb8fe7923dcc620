/**
 * The turn engine of the word-chaining game: the player's move, the AI's
 * bounded retry loop, the game-over test, giving up and restarting. Every
 * answer of the language model is a parameter, so each transition is a pure
 * function of the state and those answers.
 */
module Game {

  import opened Wrappers
  import opened Text
  import opened Oracle

  const InitialLives: int := 5

  /** How many times the AI may ask for a word in one turn. */
  const MaxAttempts: nat := 2

  /**
   * The game's global variables. Lives are plain integers: the code keeps
   * decrementing them after the game is over. `gameOver` stands for the
   * disabled input and buttons that ending the game leaves behind.
   */
  datatype GameState = GameState(
    playerLives: int,
    aiLives: int,
    aiWords: seq<String>,
    playerWords: seq<String>,
    lastAiWord: String,
    gameOver: bool)

  /** The state when the page loads, or after a restart. */
  function NewGame(): (s: GameState)
    ensures s.playerLives == InitialLives && s.aiLives == InitialLives
    ensures s.aiWords == [] && s.playerWords == [] && s.lastAiWord == []
    ensures !s.gameOver
  {
    GameState(InitialLives, InitialLives, [], [], "", false)
  }

  /** Marks the game ended; nothing else changes. */
  function EndGame(s: GameState): (r: GameState)
    ensures r.gameOver
    ensures r.playerLives == s.playerLives && SameBoard(r, s)
  {
    s.(gameOver := true)
  }

  /** Two states agree on everything except the player's lives and the
      game-over flag. */
  predicate SameBoard(a: GameState, b: GameState) {
    && a.aiLives == b.aiLives
    && a.aiWords == b.aiWords
    && a.playerWords == b.playerWords
    && a.lastAiWord == b.lastAiWord
  }

  /** The game-over test run after every change of lives. */
  function UpdateGameInfo(s: GameState): (r: GameState)
    ensures r.gameOver <==> s.gameOver || s.playerLives <= 0
    ensures r.playerLives == s.playerLives && SameBoard(r, s)
  {
    if s.playerLives <= 0 then EndGame(s) else s
  }

  /** The player gives up: no lives left, and the game is over. */
  function GiveUp(s: GameState): (r: GameState)
    ensures r.playerLives == 0 && r.gameOver
    ensures SameBoard(r, s)
  {
    UpdateGameInfo(EndGame(s.(playerLives := 0)))
  }

  /** A restart discards the whole previous state. */
  function Restart(s: GameState): (r: GameState)
    ensures r.playerLives == InitialLives && r.aiLives == InitialLives
    ensures r.aiWords == [] && r.playerWords == [] && r.lastAiWord == []
    ensures !r.gameOver
  {
    NewGame()
  }

  /** How an AI turn ended, and how many of the oracle's answers it read. */
  datatype AiTurn = AiTurn(state: GameState, found: bool, consulted: nat)

  /**
   * The AI's retry loop with one attempt per entry of `offers`, each the
   * result of one `getAIWord` request: the filtered answer (see
   * `Oracle.FilterReply`), so never an empty word. A word
   * offered is played at once: it is appended to the AI's words
   * and becomes the word the player must chain from; it is checked neither
   * against the words already used nor against the required prefix. Each
   * rejected answer costs the AI a life, and the loop stops as soon as the AI
   * has no lives left, ending the game.
   */
  function AiLoop(s: GameState, offers: seq<Option<String>>): (t: AiTurn)
    ensures t.consulted <= |offers|
    ensures offers != [] ==> t.consulted >= 1
    ensures t.state.playerLives == s.playerLives && t.state.playerWords == s.playerWords
    ensures forall j :: 0 <= j < t.consulted - 1 ==> offers[j].None?
    ensures t.found ==>
      && t.consulted >= 1
      && offers[t.consulted - 1].Some?
      && t.state.aiWords == s.aiWords + [offers[t.consulted - 1].value]
      && t.state.lastAiWord == offers[t.consulted - 1].value
      && t.state.aiLives == s.aiLives - (t.consulted - 1)
    ensures !t.found ==>
      && (t.consulted == 0 || offers[t.consulted - 1].None?)
      && t.state.aiWords == s.aiWords
      && t.state.lastAiWord == s.lastAiWord
      && t.state.aiLives == s.aiLives - t.consulted
      && (t.consulted == |offers| || t.state.aiLives <= 0)
    ensures t.consulted <= 1 || s.aiLives - (t.consulted - 1) > 0
    ensures s.gameOver ==> t.state.gameOver
    ensures s.playerLives > 0 ==>
      (t.state.gameOver <==> s.gameOver || (!t.found && t.consulted > 0 && t.state.aiLives <= 0))
    decreases |offers|
  {
    if offers == [] then AiTurn(s, false, 0)
    else
      match offers[0]
      case Some(word) =>
        AiTurn(s.(aiWords := s.aiWords + [word], lastAiWord := word), true, 1)
      case None =>
        var lost := s.(aiLives := s.aiLives - 1);
        if lost.aiLives <= 0 then AiTurn(EndGame(UpdateGameInfo(lost)), false, 1)
        else
          var rest := AiLoop(UpdateGameInfo(lost), offers[1..]);
          rest.(consulted := rest.consulted + 1)
  }

  /**
   * The AI's turn written as the source's loop: a counter of attempts that
   * starts at two, one oracle answer read per attempt.
   */
  method RunAiTurn(s: GameState, offers: seq<Option<String>>) returns (t: AiTurn)
    requires |offers| == MaxAttempts
    ensures t == AiLoop(s, offers)
  {
    var attempts := MaxAttempts;
    var state := s;
    while attempts > 0
      invariant 0 <= attempts <= MaxAttempts
      invariant
        var rest := AiLoop(state, offers[MaxAttempts - attempts..]);
        AiLoop(s, offers) == rest.(consulted := rest.consulted + (MaxAttempts - attempts))
      decreases attempts
    {
      var used := MaxAttempts - attempts;
      assert offers[used..][1..] == offers[used + 1..];
      var aiWord := offers[used];
      if aiWord.Some? {
        state := state.(aiWords := state.aiWords + [aiWord.value], lastAiWord := aiWord.value);
        return AiTurn(state, true, used + 1);
      }
      attempts := attempts - 1;
      state := state.(aiLives := state.aiLives - 1);
      if state.aiLives <= 0 {
        return AiTurn(EndGame(UpdateGameInfo(state)), false, used + 1);
      }
      state := UpdateGameInfo(state);
    }
    return AiTurn(state, false, MaxAttempts);
  }

  /** Why a submitted word was refused, or what happened after it was accepted. */
  datatype Outcome =
    | InvalidWord
    | AlreadyUsed
    | WrongPrefix
    | Accepted(aiPrefix: String, aiFound: bool, aiConsulted: nat)

  datatype Move = Move(state: GameState, outcome: Outcome)

  /** The word may follow the AI's last word: there is none, or the word
      starts with that word's last two characters. */
  predicate ChainsFrom(lastAiWord: String, input: String): (b: bool)
    ensures lastAiWord == [] ==> b
    ensures |lastAiWord| == 1 ==> (b <==> |input| >= 1 && input[0] == lastAiWord[0])
    ensures |lastAiWord| >= 2 ==>
      (b <==> |input| >= 2 && input[..2] == lastAiWord[|lastAiWord| - 2..])
  {
    lastAiWord == [] || LastTwo(lastAiWord) <= input
  }

  /** A refusal that costs the player a life, followed by the game-over test. */
  function LoseLife(s: GameState): (r: GameState)
    ensures r.playerLives == s.playerLives - 1 && SameBoard(r, s)
    ensures r.gameOver <==> s.gameOver || r.playerLives <= 0
  {
    UpdateGameInfo(s.(playerLives := s.playerLives - 1))
  }

  /**
   * An accepted word: it is appended to the player's words and the AI is
   * asked for a word starting with its last two characters. When the AI
   * finds none, the word to chain from is cleared, so the player's next word
   * is unconstrained.
   */
  function Accept(s: GameState, input: String, offers: seq<Option<String>>): (m: Move)
    requires |offers| == MaxAttempts
    ensures m.outcome.Accepted?
    ensures m.state.playerWords == s.playerWords + [input]
    ensures m.state.playerLives == s.playerLives
    ensures m.outcome.aiPrefix == LastTwo(input)
    ensures 1 <= m.outcome.aiConsulted <= MaxAttempts
    // The AI plays the first word it is offered, and gives up only after its
    // last attempt or its last life.
    ensures forall j :: 0 <= j < m.outcome.aiConsulted - 1 ==> offers[j].None?
    ensures !m.outcome.aiFound ==>
      m.outcome.aiConsulted == MaxAttempts || m.state.aiLives <= 0
    ensures m.outcome.aiConsulted <= 1 || s.aiLives - (m.outcome.aiConsulted - 1) > 0
    ensures m.outcome.aiFound ==>
      && m.state.aiWords == s.aiWords + [m.state.lastAiWord]
      && Some(m.state.lastAiWord) == offers[m.outcome.aiConsulted - 1]
      && m.state.aiLives == s.aiLives - (m.outcome.aiConsulted - 1)
      && (s.aiLives > 0 ==> m.state.aiLives > 0)
    ensures !m.outcome.aiFound ==>
      && offers[m.outcome.aiConsulted - 1].None?
      && m.state.aiWords == s.aiWords
      && m.state.lastAiWord == []
      && m.state.aiLives == s.aiLives - m.outcome.aiConsulted
    ensures s.gameOver ==> m.state.gameOver
    ensures s.playerLives > 0 ==>
      (m.state.gameOver <==> s.gameOver || (!m.outcome.aiFound && m.state.aiLives <= 0))
  {
    var recorded := s.(playerWords := s.playerWords + [input]);
    var ai := AiLoop(recorded, offers);
    var after := if ai.found then ai.state else ai.state.(lastAiWord := "");
    Move(after, Accepted(LastTwo(input), ai.found, ai.consulted))
  }

  /**
   * The player submits `input`. `answer` is the oracle's raw reply to "is
   * this a valid English word?" and `offers` the filtered replies to the
   * AI's requests for a word, one per attempt the AI may make. The checks
   * run in order and the first failure wins: validity (costs a life), reuse
   * (costs nothing), chaining (costs a life).
   */
  function SubmitWord(s: GameState, input: String, answer: String, offers: seq<Option<String>>): (m: Move)
    requires |offers| == MaxAttempts
    // Refused by the oracle: exactly one life, whatever else holds of the word.
    ensures !IsAffirmative(answer) ==>
      && m.outcome == InvalidWord
      && m.state.playerLives == s.playerLives - 1
      && SameBoard(m.state, s)
    // Already played by either side: nothing changes at all.
    ensures IsAffirmative(answer) && (input in s.aiWords || input in s.playerWords) ==>
      m.outcome == AlreadyUsed && m.state == s
    // Fails to chain from the AI's word: exactly one life.
    ensures (IsAffirmative(answer) && input !in s.aiWords && input !in s.playerWords
      && !ChainsFrom(s.lastAiWord, input)) ==>
      && m.outcome == WrongPrefix
      && m.state.playerLives == s.playerLives - 1
      && SameBoard(m.state, s)
    // A refusal that costs a life ends the game exactly when no life is left.
    ensures m.outcome == InvalidWord || m.outcome == WrongPrefix ==>
      (m.state.gameOver <==> s.gameOver || m.state.playerLives <= 0)
    // Accepted exactly when every check passes; the word was in neither list.
    ensures m.outcome.Accepted? <==>
      IsAffirmative(answer) && input !in s.aiWords && input !in s.playerWords
      && ChainsFrom(s.lastAiWord, input)
    ensures m.outcome.Accepted? ==> m == Accept(s, input, offers)
    // No move undoes the end of the game.
    ensures s.gameOver ==> m.state.gameOver
  {
    if !IsAffirmative(answer) then Move(LoseLife(s), InvalidWord)
    else if input in s.aiWords || input in s.playerWords then Move(s, AlreadyUsed)
    else if !ChainsFrom(s.lastAiWord, input) then Move(LoseLife(s), WrongPrefix)
    else Accept(s, input, offers)
  }

  /** After "ado" the word "dog" chains and "cat" does not; after a one-letter
      word the whole word is the required prefix; with no AI word any word
      chains. */
  lemma ChainExamples()
    ensures ChainsFrom("ado", "dog") && !ChainsFrom("ado", "cat")
    ensures LastTwo("a") == "a" && ChainsFrom("a", "apple")
    ensures ChainsFrom("", "cat")
  {
    assert LastTwo("ado") == "do";
    assert "cat"[0] != 'd';
  }
}
