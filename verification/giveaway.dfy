/** The giveaway handler: a three-phase state machine (idle, running,
    ended) with a set of participants that viewers join while it runs and
    that winners are drawn from once it has ended. */
module Giveaway {
  import opened Wrappers
  import opened PyStr

  datatype Phase = Idle | Running | Ended

  /** A participant: the sender's name on a chat platform. */
  datatype PickedUser = PickedUser(identifier: string, platform: string)

  /** The participant set is kept as a list without repetitions; its order
      stands for the arbitrary order of `list(set)`. */
  datatype State = State(phase: Phase, picked: seq<PickedUser>)

  predicate Distinct(users: seq<PickedUser>) {
    forall i, j :: 0 <= i < j < |users| ==> users[i] != users[j]
  }

  predicate Valid(g: State) {
    Distinct(g.picked)
  }

  /** The state a freshly loaded handler starts in. */
  const Initial: State := State(Idle, [])

  /** The handler's replies. */
  datatype Reply =
    | NotRunning
    | AlreadyRunning
    | Started
    | CannotEnd
    | HasEnded
    | StillRunning
    | NothingToPick
    | NoParticipants
    | Entered(user: PickedUser)
    | Winner(user: PickedUser)

  /** The chat text of each reply. */
  function Text(r: Reply): string {
    match r
    case NotRunning => "No giveaway is currently running."
    case AlreadyRunning => "A giveaway is already running. Please end it before starting a new one."
    case Started => "A new giveaway has started! Type `!enter` to participate."
    case CannotEnd => "Cannot end giveaway: No giveaway is currently running."
    case HasEnded => "The giveaway has ended! No more entries will be accepted."
    case StillRunning => "Cannot pick a winner: The giveaway is still running."
    case NothingToPick => "Cannot pick a winner: No giveaway is currently running."
    case NoParticipants => "No participants have entered the giveaway yet or there is no one left to pick."
    case Entered(u) => u.identifier + " has entered the giveaway!"
    case Winner(u) => "The winner of the giveaway is: " + u.identifier + "!"
  }

  lemma DistinctTail(users: seq<PickedUser>)
    requires |users| > 0
    ensures Distinct(users) ==> users[0] !in users[1..] && Distinct(users[1..])
  {
    if Distinct(users) {
      forall k | 0 <= k < |users| - 1 ensures users[1..][k] != users[0] {
        assert users[1..][k] == users[k + 1];
      }
    }
  }

  /** The participants without one user. */
  function Without(users: seq<PickedUser>, u: PickedUser): (r: seq<PickedUser>)
    ensures forall v :: v in r <==> v in users && v != u
    ensures u !in users ==> r == users
    ensures Distinct(users) && u in users ==> |r| == |users| - 1
    ensures Distinct(users) ==> Distinct(r)
  {
    if |users| == 0 then []
    else
      var rest := Without(users[1..], u);
      DistinctTail(users);
      assert users == [users[0]] + users[1..];
      if users[0] == u then rest else [users[0]] + rest
  }

  /** `enter_giveaway`. */
  function Enter(g: State, u: PickedUser): (r: (seq<Reply>, State))
    ensures g.phase != Running ==> r == ([NotRunning], g)
    ensures g.phase == Running && u in g.picked ==> r == ([], g)
    ensures g.phase == Running && u !in g.picked ==>
              r.0 == [Entered(u)] && r.1.phase == Running
              && (forall v :: v in r.1.picked <==> v in g.picked || v == u)
    ensures Valid(g) ==> Valid(r.1)
  {
    if g.phase != Running then ([NotRunning], g)
    else if u in g.picked then ([], g)
    else ([Entered(u)], g.(picked := g.picked + [u]))
  }

  /** `_start_giveaway`: from idle or ended, a new giveaway with nobody in
      it; a running one is left alone. */
  function Start(g: State): (r: (Reply, State))
    ensures r.0.Started? <==> !g.phase.Running?
    ensures r.0.Started? ==> r.1 == State(Running, [])
    ensures !r.0.Started? ==> r == (AlreadyRunning, g)
  {
    if !(g.phase == Idle || g.phase == Ended) then
      (AlreadyRunning, g)
    else (Started, State(Running, []))
  }

  /** `_end_giveaway`: closes entries and keeps the participants. */
  function End(g: State): (r: (Reply, State))
    ensures r.1.picked == g.picked
    ensures r.0 == HasEnded <==> g.phase == Running
    ensures r.0 == HasEnded ==> r.1.phase == Ended
    ensures r.0 != HasEnded ==> r == (CannotEnd, g)
  {
    if g.phase != Running then (CannotEnd, g)
    else (HasEnded, g.(phase := Ended))
  }

  /** `_pick_winner`; `roll` stands for the random choice, which picks the
      participant at `roll` modulo the number of participants. */
  function Pick(g: State, roll: nat): (r: (Reply, State))
    ensures g.phase == Running ==> r == (StillRunning, g)
    ensures g.phase == Idle ==> r == (NothingToPick, g)
    ensures g.phase == Ended && |g.picked| == 0 ==> r == (NoParticipants, g)
    ensures g.phase == Ended && |g.picked| > 0 ==>
              exists w :: w in g.picked && r.0 == Winner(w) && r.1.phase == Ended
                          && (forall v :: v in r.1.picked <==> v in g.picked && v != w)
                          && (Valid(g) ==> |r.1.picked| == |g.picked| - 1)
    ensures Valid(g) ==> Valid(r.1)
  {
    if g.phase == Running then (StillRunning, g)
    else if g.phase != Ended then (NothingToPick, g)
    else if |g.picked| == 0 then (NoParticipants, g)
    else
      var w := g.picked[roll % |g.picked|];
      (Winner(w), g.(picked := Without(g.picked, w)))
  }

  /** `GiveawayCommand.handle_command`: `[]` on a chat without giveaways,
      nothing for a missing or unknown subcommand, otherwise the one reply
      of `start`, `end` or `pick` (matched in lower case). */
  function Handle(g: State, supportsGiveaways: bool, args: seq<string>, roll: nat): (r: (Option<seq<Reply>>, State))
    ensures !supportsGiveaways ==> r == (Some([]), g)
    ensures supportsGiveaways ==>
              (r.0.None? <==> |args| == 0 || Lower(args[0]) !in {"start", "end", "pick"})
    ensures r.0.None? ==> r.1 == g
    ensures r.0.Some? && supportsGiveaways ==> |r.0.value| == 1
    ensures supportsGiveaways && |args| > 0 && Lower(args[0]) == "start" ==> r == (Some([Start(g).0]), Start(g).1)
    ensures supportsGiveaways && |args| > 0 && Lower(args[0]) == "end" ==> r == (Some([End(g).0]), End(g).1)
    ensures supportsGiveaways && |args| > 0 && Lower(args[0]) == "pick" ==> r == (Some([Pick(g, roll).0]), Pick(g, roll).1)
  {
    if !supportsGiveaways then (Some([]), g)
    else if |args| == 0 then (None, g)
    else
      var sub := Lower(args[0]);
      if sub == "start" then var (m, g') := Start(g); (Some([m]), g')
      else if sub == "end" then var (m, g') := End(g); (Some([m]), g')
      else if sub == "pick" then var (m, g') := Pick(g, roll); (Some([m]), g')
      else (None, g)
  }

  /** `GiveawayEnterCommand.handle_command`: the sender enters under their
      name and platform. */
  function HandleEnter(g: State, supportsGiveaways: bool, sender: string, platform: string): (r: (Option<seq<Reply>>, State))
    ensures !supportsGiveaways ==> r == (Some([]), g)
    ensures supportsGiveaways ==> r == (Some(Enter(g, PickedUser(sender, platform)).0), Enter(g, PickedUser(sender, platform)).1)
  {
    if !supportsGiveaways then (Some([]), g)
    else
      var (replies, g') := Enter(g, PickedUser(sender, platform));
      (Some(replies), g')
  }

  /*** Laws ***/

  /** Entering a second time changes nothing and says nothing. */
  lemma EnterIdempotent(g: State, u: PickedUser)
    requires g.phase == Running
    ensures var once := Enter(g, u).1;
            Enter(once, u) == ([], once)
  {
  }

  /** A full round: after start, one entry and end, the only participant
      wins, whatever the draw, and nobody is left to pick. */
  lemma SingleEntrantWins(g: State, u: PickedUser, roll: nat)
    requires g.phase != Running
    ensures var s1 := Start(g).1;
            var s2 := Enter(s1, u).1;
            var s3 := End(s2).1;
            Pick(s3, roll) == (Winner(u), State(Ended, []))
            && Pick(Pick(s3, roll).1, roll) == (NoParticipants, State(Ended, []))
  {
    var s3 := State(Ended, [u]);
    assert End(Enter(Start(g).1, u).1).1 == s3;
    assert [u][roll % 1] == u;
    assert Without([u], u) == [];
  }

  /** Every operation keeps the participants free of repetitions. */
  lemma {:induction false} StepsKeepValid(g: State, ops: seq<string>, users: seq<PickedUser>, roll: nat)
    requires Valid(g) && |users| == |ops|
    ensures Valid(Run(g, ops, users, roll))
    decreases |ops|
  {
    if |ops| > 0 {
      var next := if ops[0] == "enter" then Enter(g, users[0]).1 else Handle(g, true, [ops[0]], roll).1;
      assert Valid(next) by {
        if ops[0] != "enter" {
          var sub := Lower(ops[0]);
          assert Valid(Start(g).1) && Valid(End(g).1) && Valid(Pick(g, roll).1);
        }
      }
      StepsKeepValid(next, ops[1..], users[1..], roll);
    }
  }

  /** A session: each `enter` admits the user at the same position, every
      other word is a `!giveaway` subcommand. */
  function Run(g: State, ops: seq<string>, users: seq<PickedUser>, roll: nat): State
    requires |users| == |ops|
    decreases |ops|
  {
    if |ops| == 0 then g
    else
      var next := if ops[0] == "enter" then Enter(g, users[0]).1 else Handle(g, true, [ops[0]], roll).1;
      Run(next, ops[1..], users[1..], roll)
  }

  /** Picking never happens while entries are open: the participants of a
      running giveaway only grow. */
  lemma RunningOnlyGrows(g: State, args: seq<string>, u: PickedUser, roll: nat)
    requires g.phase == Running
    ensures var h := Handle(g, true, args, roll).1;
            forall v :: v in g.picked ==> v in h.picked
    ensures forall v :: v in g.picked ==> v in Enter(g, u).1.picked
  {
  }
}
