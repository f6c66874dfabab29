/**
 * The question server's player table (server/server.py): each player, known by the id the client
 * sends, holds the question sequence it selected. A cleanup that drops players not seen for half
 * an hour exists, but only `_ensure_player` runs it, and no route calls `_ensure_player`. The clock
 * reading `now` and the random choices of the English generator are parameters.
 */
module QuestionServer {
  import opened Wrappers
  import opened Questions
  import EnglQuestions
  import EtreAvoirQuestions

  /** `TTL_SECONDS`: thirty minutes. */
  const TtlSeconds: real := 1800.0

  /** The `CLASS_NAME`s by which `SequenceFactories` knows its sequences. */
  const StatementToQuestionName: string := "Statement to Question"
  const EtreAvoirName: string := "Les verbes \"\U{00EA}tre\" et \"avoir\""

  const BadRequest: nat := 400
  const UnknownSequence: string := "Unknown sequenceId"
  const NoSequence: string := "No sequence selected."

  /** Whether `SequenceFactories` has a sequence by this name. */
  predicate Known(seqId: string) {
    seqId == StatementToQuestionName || seqId == EtreAvoirName
  }

  /** A question sequence a player works through: one of the two factories. */
  datatype Factory =
    | English(english: EnglQuestions.MakeQuestionSequence)
    | Conjugation(conjugation: EtreAvoirQuestions.EtreAvoir)

  /** The object holding the sequence's state. */
  function Obj(f: Factory): object {
    match f
    case English(s) => s
    case Conjugation(e) => e
  }

  ghost predicate FactoryValid(f: Factory)
    reads Obj(f)
  {
    match f
    case English(s) => s.Valid()
    case Conjugation(e) => e.Valid()
  }

  /** A sequence just made by the factory named `seqId`, before its first question. */
  ghost predicate Initial(f: Factory, seqId: string)
    reads Obj(f)
  {
    match f
    case English(s) => seqId == StatementToQuestionName && s.numQ == EnglQuestions.DefaultNumQ && s.count == 0
    case Conjugation(e) => seqId == EtreAvoirName && e.count == -1
  }

  /** `get_pronounciations`: the English sequence keeps the base class's empty manifest. */
  function FactoryPronunciations(f: Factory): (m: map<string, string>)
    ensures f.English? ==> m == map[]
    ensures f.Conjugation? ==> m == EtreAvoirQuestions.Pronunciations
  {
    match f
    case English(_) => map[]
    case Conjugation(_) => EtreAvoirQuestions.Pronunciations
  }

  /** `PlayerState`: whose state it is, its sequence, and when the player was last seen. */
  datatype PlayerState = PlayerState(playerId: string, seqFactory: Factory, lastSeen: real)

  /** Whether a player has not been seen for longer than the time to live. */
  predicate Stale(p: PlayerState, now: real) {
    now - p.lastSeen > TtlSeconds
  }

  /** `_cleanup_players` as a value: the table without its stale players. */
  function Cleaned(players: map<string, PlayerState>, now: real): (r: map<string, PlayerState>)
    ensures forall pid :: pid in r <==> pid in players && now - players[pid].lastSeen <= TtlSeconds
    ensures forall pid :: pid in r ==> r[pid] == players[pid]
  {
    map pid | pid in players && !Stale(players[pid], now) :: players[pid]
  }

  /** Cleaning up at some time and again later is cleaning up once, later. */
  lemma CleanedLater(players: map<string, PlayerState>, earlier: real, later: real)
    requires earlier <= later
    ensures Cleaned(Cleaned(players, earlier), later) == Cleaned(players, later)
  {
  }

  /** `PlayerState(...)` as written: the hook is spelled `__post_init`, never runs, and keeps the given time. */
  function StateAsWritten(pid: string, f: Factory, lastSeen: real): (p: PlayerState)
    ensures p.playerId == pid && p.seqFactory == f && p.lastSeen == lastSeen
  {
    PlayerState(pid, f, lastSeen)
  }

  /** `PlayerState(...)` as intended: `__post_init__` replaces a negative last-seen time by the time of creation. */
  function StateAtCreation(pid: string, f: Factory, lastSeen: real, now: real): (p: PlayerState)
    ensures p.playerId == pid && p.seqFactory == f
    ensures p.lastSeen == if lastSeen < 0.0 then now else lastSeen
  {
    PlayerState(pid, f, if lastSeen < 0.0 then now else lastSeen)
  }

  /**
   * As written, a player created by selecting a sequence (last seen -1) is stale to any cleanup after
   * the first half hour of the clock: a cleanup run then would drop the player and the progress
   * made. No route runs the cleanup, so this stays latent until one does.
   */
  lemma SelectedAsWrittenIsStale(players: map<string, PlayerState>, pid: string, f: Factory, now: real)
    requires now > TtlSeconds - 1.0
    ensures pid !in Cleaned(players[pid := StateAsWritten(pid, f, -1.0)], now)
  {
  }

  /** As intended, a player created by selecting a sequence survives every cleanup of the next half hour. */
  lemma SelectedSurvivesTtl(players: map<string, PlayerState>, pid: string, f: Factory, now: real, later: real)
    requires now <= later <= now + TtlSeconds
    ensures var created := StateAtCreation(pid, f, -1.0, now);
            pid in Cleaned(players[pid := created], later) && Cleaned(players[pid := created], later)[pid] == created
  {
  }

  /** `api_reset` as written: the assignment binds a local name, and the table is left as it was. */
  function ResetAsWritten(players: map<string, PlayerState>): map<string, PlayerState> {
    players
  }

  /** As written, resetting keeps every player. */
  lemma ResetAsWrittenKeepsPlayers(players: map<string, PlayerState>, pid: string)
    requires pid in players
    ensures pid in ResetAsWritten(players) && ResetAsWritten(players)[pid] == players[pid]
  {
  }

  /** The reply to selecting a sequence. */
  datatype SelectReply =
    | SelectError(status: nat, error: string)
    | Selected(sequenceId: string, pronunciations: map<string, string>)

  /** The reply to asking for the next question: done, with or without a message, or a question. */
  datatype NextReply =
    | Done(message: Option<string>)
    | Next(data: QuestionData)

  /** A question, or done when the sequence has none left. */
  function ReplyOf(q: Option<QuestionData>): (r: NextReply)
    ensures r.Done? <==> q.None?
    ensures r.Done? ==> r.message.None?
    ensures q.Some? ==> r == Next(q.value)
  {
    match q
    case None => Done(None)
    case Some(d) => Next(d)
  }

  /** `SequenceFactories[seq_id]()`: a new sequence of the named kind. */
  method NewFactory(seqId: string) returns (f: Factory)
    requires Known(seqId)
    ensures fresh(Obj(f)) && FactoryValid(f) && Initial(f, seqId)
  {
    if seqId == StatementToQuestionName {
      var s := new EnglQuestions.MakeQuestionSequence(EnglQuestions.DefaultNumQ);
      f := English(s);
    } else {
      var e := new EtreAvoirQuestions.EtreAvoir();
      f := Conjugation(e);
    }
  }

  /** The in-memory player table, `PLAYERS`. */
  class Server {
    var players: map<string, PlayerState>

    /** Each entry is filed under its own player id and holds a sequence in a valid state. */
    ghost predicate Valid()
      reads this, set pid | pid in players :: Obj(players[pid].seqFactory)
    {
      forall pid :: pid in players ==> players[pid].playerId == pid && FactoryValid(players[pid].seqFactory)
    }

    constructor ()
      ensures Valid() && players == map[]
    {
      players := map[];
    }

    /** `_cleanup_players`: deletes the stale players one by one. */
    method CleanupPlayers(now: real)
      requires Valid()
      modifies this
      ensures Valid() && players == Cleaned(old(players), now)
    {
      var stale := set pid | pid in players && Stale(players[pid], now);
      var left := stale;
      while left != {}
        invariant left <= stale
        invariant players == old(players) - (stale - left)
        decreases |left|
      {
        var pid :| pid in left;
        players := players - {pid};
        left := left - {pid};
      }
      assert players == old(players) - stale;
    }

    /**
     * `_ensure_player`: after the cleanup, a known player is refreshed, and a new one gets a fresh
     * sequence of the named kind; an unknown name for a new player raises the key error.
     */
    method EnsurePlayer(pid: string, seqId: string, now: real) returns (r: Result<PlayerState>)
      requires Valid()
      modifies this
      ensures Valid()
      ensures var kept := Cleaned(old(players), now);
              if pid in kept then
                r == Ok(kept[pid].(lastSeen := now)) && players == kept[pid := r.value]
              else if !Known(seqId) then
                r.Err? && players == kept
              else
                r.Ok? && players == kept[pid := r.value] && r.value.playerId == pid && r.value.lastSeen == now &&
                fresh(Obj(r.value.seqFactory)) && Initial(r.value.seqFactory, seqId)
    {
      CleanupPlayers(now);
      if pid !in players {
        if !Known(seqId) {
          return Err("KeyError: " + seqId);
        }
        var f := NewFactory(seqId);
        var state := PlayerState(pid, f, now);
        players := players[pid := state];
        r := Ok(state);
      } else {
        var state := players[pid].(lastSeen := now);
        players := players[pid := state];
        r := Ok(state);
      }
    }

    /**
     * `api_select`: an absent or unknown sequence name is a bad request and changes nothing; a known
     * one gives the player a fresh sequence and the manifest of its recordings. The state keeps the
     * default last-seen time -1, since its creation hook never runs.
     */
    method ApiSelect(pid: string, seqId: Option<string>, now: real) returns (reply: SelectReply)
      requires Valid()
      modifies this
      ensures Valid()
      ensures seqId.None? || !Known(seqId.value) ==>
                reply == SelectError(BadRequest, UnknownSequence) && players == old(players)
      ensures seqId.Some? && Known(seqId.value) ==>
                pid in players && players == old(players)[pid := players[pid]] &&
                players[pid] == StateAsWritten(pid, players[pid].seqFactory, -1.0) &&
                players[pid].lastSeen == -1.0 &&
                fresh(Obj(players[pid].seqFactory)) && Initial(players[pid].seqFactory, seqId.value) &&
                reply == Selected(seqId.value, FactoryPronunciations(players[pid].seqFactory))
    {
      if seqId.None? || !Known(seqId.value) {
        return SelectError(BadRequest, UnknownSequence);
      }
      var f := NewFactory(seqId.value);
      players := players[pid := StateAsWritten(pid, f, -1.0)];
      reply := Selected(seqId.value, FactoryPronunciations(f));
    }

    /**
     * `api_select` with the creation hook spelled `__post_init__`: the new state is last seen at
     * `now`, so every cleanup within the next half hour keeps it.
     */
    method ApiSelectIntended(pid: string, seqId: Option<string>, now: real) returns (reply: SelectReply)
      requires Valid()
      modifies this
      ensures Valid()
      ensures seqId.None? || !Known(seqId.value) ==>
                reply == SelectError(BadRequest, UnknownSequence) && players == old(players)
      ensures seqId.Some? && Known(seqId.value) ==>
                pid in players && players == old(players)[pid := players[pid]] &&
                players[pid] == StateAtCreation(pid, players[pid].seqFactory, -1.0, now) &&
                players[pid].lastSeen == now &&
                (forall later :: now <= later <= now + TtlSeconds ==> pid in Cleaned(players, later)) &&
                fresh(Obj(players[pid].seqFactory)) && Initial(players[pid].seqFactory, seqId.value) &&
                reply == Selected(seqId.value, FactoryPronunciations(players[pid].seqFactory))
    {
      if seqId.None? || !Known(seqId.value) {
        return SelectError(BadRequest, UnknownSequence);
      }
      var f := NewFactory(seqId.value);
      players := players[pid := StateAtCreation(pid, f, -1.0, now)];
      forall later | now <= later <= now + TtlSeconds
        ensures pid in Cleaned(players, later)
      {
        SelectedSurvivesTtl(old(players), pid, f, now, later);
      }
      reply := Selected(seqId.value, FactoryPronunciations(f));
    }

    /**
     * `api_next`: a player without a sequence is told so; otherwise the answer counts as good when
     * `success` is absent, null or truthy (`success` holds its truth value when present), and the
     * player's sequence moves on and serves its next question, or done.
     */
    method ApiNext(pid: string, success: Option<bool>, subj: EnglQuestions.Subject, npred: EnglQuestions.NPred, pick: nat)
      returns (reply: NextReply)
      requires Valid() && EnglQuestions.InTables(subj.num, subj.pers)
      modifies if pid in players then {Obj(players[pid].seqFactory)} else {}
      ensures Valid() && players == old(players)
      ensures pid !in players ==> reply == Done(Some(NoSequence))
      ensures pid in players ==>
                var good := success.None? || success.value;
                match players[pid].seqFactory
                case English(s) =>
                  s.count == old(s.count) + (if good then 1 else 0) &&
                  reply == ReplyOf(EnglQuestions.NextQuestion(s.count, s.numQ, subj, npred, pick))
                case Conjugation(e) =>
                  e.count == old(e.count) + (if good then 1 else 0) &&
                  reply == ReplyOf(EtreAvoirQuestions.Served(e.count))
    {
      if pid !in players {
        return Done(Some(NoSequence));
      }
      var good := success.None? || success.value;
      var q: Option<QuestionData>;
      match players[pid].seqFactory {
        case English(s) =>
          q := s.GetNextQuestion(good, subj, npred, pick);
        case Conjugation(e) =>
          q := e.GetNextQuestion(good);
      }
      if q.None? {
        return Done(None);
      }
      reply := Next(q.value);
    }

    /** `api_reset` as intended: forgets every player. */
    method ApiReset() returns (ok: bool)
      modifies this
      ensures ok && players == map[]
    {
      players := map[];
      ok := true;
    }
  }
}
