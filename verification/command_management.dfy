/** The `!command` handler, which lets moderators add, update and remove the
    chat commands kept in the database. The database is modelled as its four
    command tables, each a list of named rows in storage order. */
module CommandManagement {
  import opened Wrappers
  import opened PyStr

  /** What a command row holds besides its name. */
  datatype Body =
    | StaticBody(response: string)
    | ParameterizedBody(response: string, parameters: seq<string>)
    | SoundboardBody(clipUrl: string)
    | ScriptBody

  datatype Command = Command(name: string, body: Body)

  /** The command tables: static responses, parameterized responses,
      soundboard clips and scripts (a script row is named by its command). */
  datatype Tables = Tables(statics: seq<Command>, parameterized: seq<Command>, soundboard: seq<Command>, scripts: seq<Command>)

  /** The errors a call into the database raises: its own, and the
      `TypeError` of a call with a keyword the method does not take. */
  datatype DatabaseError =
    | AlreadyExists(name: string)
    | MultipleResultsFound(name: string)
    | UnexpectedKeyword(keyword: string)

  /** The translation keys of the handler's replies. */
  datatype Reply =
    | CannotAddOrUpdateSoundboardCommand
    | BuiltinCommandCannotBeChanged
    | CommandToUpdateNotFound
    | CommandAlreadyExists
    | CommandUpdated
    | CommandAdded
    | CommandRemoved
    | BuiltinCommandCannotBeDeleted
    | CommandToDeleteNotFound

  /** A handled subcommand: whether it succeeded (and so fires the
      commands-changed callback), its reply and the tables afterwards. */
  datatype Outcome = Outcome(success: bool, reply: Reply, tables: Tables)

  /*** Names ***/

  /** `name.lstrip("!")`: every leading `!` goes. */
  function StripBangs(s: string): (r: string)
    ensures |r| <= |s| && r == s[|s| - |r|..]
    ensures forall i :: 0 <= i < |s| - |r| ==> s[i] == '!'
    ensures |r| > 0 ==> r[0] != '!'
  {
    if |s| > 0 && s[0] == '!' then StripBangs(s[1..]) else s
  }

  predicate Matches(c: Command, name: string) {
    EqualsIgnoreCase(c.name, name)
  }

  predicate HasMatch(t: seq<Command>, name: string) {
    exists j :: 0 <= j < |t| && Matches(t[j], name)
  }

  predicate HasName(t: seq<Command>, name: string) {
    exists j :: 0 <= j < |t| && t[j].name == name
  }

  /** Whether one of the names matches, ignoring case. */
  predicate NamedIn(names: seq<string>, name: string) {
    exists j :: 0 <= j < |names| && EqualsIgnoreCase(names[j], name)
  }

  /** The position of the first row whose name matches, ignoring case. */
  function FirstMatch(t: seq<Command>, name: string): (r: Option<nat>)
    ensures r.None? <==> !HasMatch(t, name)
    ensures r.Some? ==> r.value < |t| && Matches(t[r.value], name)
                        && forall j :: 0 <= j < r.value ==> !Matches(t[j], name)
  {
    if |t| == 0 then None
    else if Matches(t[0], name) then Some(0)
    else
      match FirstMatch(t[1..], name)
      case None =>
        assert forall j :: 1 <= j < |t| ==> t[j] == t[1..][j - 1];
        None
      case Some(i) =>
        assert forall j :: 1 <= j <= i ==> t[j] == t[1..][j - 1];
        Some(i + 1)
  }

  function RemoveAt(t: seq<Command>, i: nat): (r: seq<Command>)
    requires i < |t|
    ensures |r| == |t| - 1
  {
    t[..i] + t[i + 1..]
  }

  /** One table's part of `remove_command_case_insensitive`: the single
      matching row is deleted; a second match is an error, as a query for
      one row or none raises. */
  function RemoveFrom(t: seq<Command>, name: string): (r: Result<(bool, seq<Command>), DatabaseError>)
    ensures r.Success? && !r.value.0 <==> !HasMatch(t, name)
    ensures r.Success? && !r.value.0 ==> r.value.1 == t
    ensures r.Success? && r.value.0 ==>
              exists i :: (0 <= i < |t| && Matches(t[i], name) && r.value.1 == RemoveAt(t, i)
                           && forall j :: 0 <= j < |t| && j != i ==> !Matches(t[j], name))
    ensures r.Failure? <==> exists i, j :: 0 <= i < j < |t| && Matches(t[i], name) && Matches(t[j], name)
  {
    match FirstMatch(t, name)
    case None => Success((false, t))
    case Some(i) =>
      if exists j :: i < j < |t| && Matches(t[j], name) then Failure(MultipleResultsFound(name))
      else Success((true, RemoveAt(t, i)))
  }

  /** `remove_command_case_insensitive`: the tables are searched in the
      order static, parameterized, soundboard, script, and the first table
      with a match loses that row. */
  function RemoveCaseInsensitive(tables: Tables, name: string): (r: Result<(bool, Tables), DatabaseError>)
    ensures r.Success? && !r.value.0 ==> r.value.1 == tables
    ensures r.Success? && !r.value.0 <==>
              !HasMatch(tables.statics, name) && !HasMatch(tables.parameterized, name)
              && !HasMatch(tables.soundboard, name) && !HasMatch(tables.scripts, name)
  {
    var s :- RemoveFrom(tables.statics, name);
    if s.0 then Success((true, tables.(statics := s.1)))
    else
      var p :- RemoveFrom(tables.parameterized, name);
      if p.0 then Success((true, tables.(parameterized := p.1)))
      else
        var b :- RemoveFrom(tables.soundboard, name);
        if b.0 then Success((true, tables.(soundboard := b.1)))
        else
          var x :- RemoveFrom(tables.scripts, name);
          if x.0 then Success((true, tables.(scripts := x.1)))
          else Success((false, tables))
  }

  /** Adding a row: the table's primary key is the exact name. */
  function AddTo(t: seq<Command>, c: Command): (r: Result<seq<Command>, DatabaseError>)
    ensures r.Failure? <==> HasName(t, c.name)
    ensures r.Success? ==> r.value == t + [c]
  {
    if HasName(t, c.name) then Failure(AlreadyExists(c.name)) else Success(t + [c])
  }

  /** Every parameter stripped. */
  function StripAll(ps: seq<string>): (r: seq<string>)
    ensures |r| == |ps| && forall k :: 0 <= k < |ps| ==> r[k] == Strip(ps[k])
  {
    seq(|ps|, k requires 0 <= k < |ps| => Strip(ps[k]))
  }

  /** The non-empty strings, each at its first occurrence. */
  function Dedup(qs: seq<string>): (r: seq<string>)
    ensures forall i :: 0 <= i < |r| ==> |r[i]| > 0
    ensures forall i, j :: 0 <= i < j < |r| ==> r[i] != r[j]
    ensures forall p :: p in r <==> p != "" && p in qs
    decreases |qs|
  {
    if |qs| == 0 then []
    else
      var n := |qs| - 1;
      var front := Dedup(qs[..n]);
      assert qs == qs[..n] + [qs[n]];
      if qs[n] == "" || qs[n] in front then front else front + [qs[n]]
  }

  /** The parameters a parameterized command keeps: each is stripped, and
      empty ones and repeats are skipped. */
  function CleanParameters(ps: seq<string>): (r: seq<string>)
    ensures forall i :: 0 <= i < |r| ==> |r[i]| > 0
    ensures forall i, j :: 0 <= i < j < |r| ==> r[i] != r[j]
    ensures forall p :: p in r <==> p != "" && exists k :: 0 <= k < |ps| && Strip(ps[k]) == p
  {
    var stripped := StripAll(ps);
    assert forall p :: p in stripped <==> exists k :: 0 <= k < |ps| && Strip(ps[k]) == p by {
      forall p ensures p in stripped ==> exists k :: 0 <= k < |ps| && Strip(ps[k]) == p {
        if p in stripped {
          var k :| 0 <= k < |stripped| && stripped[k] == p;
          assert Strip(ps[k]) == p;
        }
      }
    }
    Dedup(stripped)
  }

  /*** Subcommands ***/

  /** `_add_or_update_command`; `handlers` are the names of all registered
      command handlers, the built-in ones included. */
  function AddOrUpdate(tables: Tables, handlers: seq<string>, name: string, response: string, parameters: seq<string>, isUpdate: bool): (r: Result<Outcome, DatabaseError>)
    ensures r.Success? && !r.value.success ==> r.value.tables == tables
    ensures r.Success? ==> (r.value.success <==> r.value.reply in {CommandAdded, CommandUpdated})
    ensures HasMatch(tables.soundboard, name) ==>
              r == Success(Outcome(false, CannotAddOrUpdateSoundboardCommand, tables))
  {
    if HasMatch(tables.soundboard, name) then Success(Outcome(false, CannotAddOrUpdateSoundboardCommand, tables))
    else
      var commands := tables.statics + tables.parameterized;
      var existing := FirstMatch(commands, name);
      if existing.None? && NamedIn(handlers, name) then Success(Outcome(false, BuiltinCommandCannotBeChanged, tables))
      else if existing.None? && isUpdate then Success(Outcome(false, CommandToUpdateNotFound, tables))
      else if existing.Some? && !isUpdate then Success(Outcome(false, CommandAlreadyExists, tables))
      else
        var cleared :- if existing.Some? then RemoveCaseInsensitive(tables, commands[existing.value].name) else Success((false, tables));
        var t := cleared.1;
        var added :-
          if |parameters| == 0 then
            var s :- AddTo(t.statics, Command(name, StaticBody(response)));
            Success(t.(statics := s))
          else
            var p :- AddTo(t.parameterized, Command(name, ParameterizedBody(response, CleanParameters(parameters))));
            Success(t.(parameterized := p));
        Success(Outcome(true, if isUpdate then CommandUpdated else CommandAdded, added))
  }

  /** `_add_clip_command` as written: only the registered handlers are
      consulted, and then `add_soundboard_command` is called with
      `clip_url=`, a keyword it does not take (it wants a file name and the
      uploader's Twitch fields), so the call raises a `TypeError` and no row
      is added. */
  function AddClipAsWritten(tables: Tables, handlers: seq<string>, name: string, clipUrl: string): (r: Result<Outcome, DatabaseError>)
    ensures NamedIn(handlers, name) ==> r == Success(Outcome(false, CommandAlreadyExists, tables))
    ensures !NamedIn(handlers, name) ==> r == Failure(UnexpectedKeyword("clip_url"))
  {
    if NamedIn(handlers, name) then Success(Outcome(false, CommandAlreadyExists, tables))
    else Failure(UnexpectedKeyword("clip_url"))
  }

  /** `_add_clip_command` as evidently intended: the clip row is added
      under the name. */
  function AddClip(tables: Tables, handlers: seq<string>, name: string, clipUrl: string): (r: Result<Outcome, DatabaseError>)
    ensures NamedIn(handlers, name) ==> r == Success(Outcome(false, CommandAlreadyExists, tables))
    ensures r.Success? && r.value.success ==>
              r.value.reply == CommandAdded
              && r.value.tables == tables.(soundboard := tables.soundboard + [Command(name, SoundboardBody(clipUrl))])
    ensures r.Failure? <==> !NamedIn(handlers, name) && HasName(tables.soundboard, name)
  {
    if NamedIn(handlers, name) then Success(Outcome(false, CommandAlreadyExists, tables))
    else
      var s :- AddTo(tables.soundboard, Command(name, SoundboardBody(clipUrl)));
      Success(Outcome(true, CommandAdded, tables.(soundboard := s)))
  }

  /** `_remove_command`: a row found in any table is deleted; otherwise the
      reply tells a built-in apart from an unknown name. */
  function Remove(tables: Tables, handlers: seq<string>, name: string): (r: Result<Outcome, DatabaseError>)
    ensures r.Success? ==> (r.value.success <==> r.value.reply == CommandRemoved)
    ensures r.Success? && !r.value.success ==> r.value.tables == tables
    ensures r.Success? && !r.value.success ==>
              r.value.reply == (if NamedIn(handlers, name) then BuiltinCommandCannotBeDeleted else CommandToDeleteNotFound)
  {
    var removed :- RemoveCaseInsensitive(tables, name);
    if removed.0 then Success(Outcome(true, CommandRemoved, removed.1))
    else if NamedIn(handlers, name) then Success(Outcome(false, BuiltinCommandCannotBeDeleted, tables))
    else Success(Outcome(false, CommandToDeleteNotFound, tables))
  }

  /** The subcommands and the argument counts (subcommand included) that
      `handle_command` accepts. */
  predicate Accepted(sub: string, argc: nat) {
    ((sub == "add" || sub == "add-clip" || sub == "update") && argc >= 3)
    || (sub == "remove" && argc >= 2)
  }

  /** A subcommand's outcome as `handle_command` returns it. */
  function Reported(r: Result<Outcome, DatabaseError>): Result<Option<Outcome>, DatabaseError> {
    match r
    case Success(o) => Success(Some(o))
    case Failure(e) => Failure(e)
  }

  /** `handle_command`: nothing for a missing subcommand, an unknown one or
      too few arguments; otherwise the reply of the subcommand, which gets
      the name without its leading `!`s, the response or clip, and the
      parameters. */
  function Handle(tables: Tables, handlers: seq<string>, args: seq<string>): (r: Result<Option<Outcome>, DatabaseError>)
    ensures r == Success(None) <==> |args| == 0 || !Accepted(Lower(args[0]), |args|)
    ensures r.Success? && r.value.Some? && !r.value.value.success ==> r.value.value.tables == tables
    ensures |args| >= 3 && Lower(args[0]) == "add" ==>
              r == Reported(AddOrUpdate(tables, handlers, StripBangs(args[1]), args[2], args[3..], false))
    ensures |args| >= 3 && Lower(args[0]) == "add-clip" ==>
              r == Reported(AddClipAsWritten(tables, handlers, StripBangs(args[1]), args[2]))
    ensures |args| >= 3 && Lower(args[0]) == "update" ==>
              r == Reported(AddOrUpdate(tables, handlers, StripBangs(args[1]), args[2], args[3..], true))
    ensures |args| >= 2 && Lower(args[0]) == "remove" ==>
              r == Reported(Remove(tables, handlers, StripBangs(args[1])))
  {
    if |args| < 1 then Success(None)
    else
      var sub := Lower(args[0]);
      if sub == "add" && |args| >= 3 then Reported(AddOrUpdate(tables, handlers, StripBangs(args[1]), args[2], args[3..], false))
      else if sub == "add-clip" && |args| >= 3 then Reported(AddClipAsWritten(tables, handlers, StripBangs(args[1]), args[2]))
      else if sub == "update" && |args| >= 3 then Reported(AddOrUpdate(tables, handlers, StripBangs(args[1]), args[2], args[3..], true))
      else if sub == "remove" && |args| >= 2 then Reported(Remove(tables, handlers, StripBangs(args[1])))
      else Success(None)
  }

  /*** Laws ***/

  lemma LowerAdd() ensures Lower("add") == "add" { LowerOfLowerCase("add"); }
  lemma LowerAddClip() ensures Lower("add-clip") == "add-clip" { LowerOfLowerCase("add-clip"); }
  lemma LowerUpdate() ensures Lower("update") == "update" { LowerOfLowerCase("update"); }
  lemma LowerRemove() ensures Lower("remove") == "remove" { LowerOfLowerCase("remove"); }

  /** `!name` and `name` address the same command. */
  lemma BangIsOptional(tables: Tables, handlers: seq<string>, sub: string, name: string, rest: seq<string>)
    ensures Handle(tables, handlers, [sub, "!" + name] + rest) == Handle(tables, handlers, [sub, name] + rest)
  {
    var bang := "!" + name;
    assert bang[0] == '!' && bang[1..] == name;
    assert StripBangs(bang) == StripBangs(name);
    var a := [sub, bang] + rest;
    var b := [sub, name] + rest;
    assert a[0] == b[0] && a[1] == bang && b[1] == name;
    assert a[2..] == rest == b[2..];
    if |rest| > 0 {
      assert a[2] == b[2] && a[3..] == b[3..];
    }
  }

  /** The subcommand is matched ignoring case. */
  lemma SubcommandIgnoresCase(tables: Tables, handlers: seq<string>, sub: string, rest: seq<string>)
    ensures Handle(tables, handlers, [sub] + rest) == Handle(tables, handlers, [Lower(sub)] + rest)
  {
    LowerIdempotent(sub);
    var a := [sub] + rest;
    var b := [Lower(sub)] + rest;
    assert a[1..] == b[1..];
    if |a| >= 2 {
      assert a[1] == b[1];
    }
    if |a| >= 3 {
      assert a[2] == b[2] && a[3..] == b[3..];
    }
  }

  lemma NoMatchInConcat(a: seq<Command>, b: seq<Command>, name: string)
    requires !HasMatch(a, name) && !HasMatch(b, name)
    ensures !HasMatch(a + b, name)
  {
    forall j | 0 <= j < |a + b| ensures !Matches((a + b)[j], name) {
      if j < |a| { assert (a + b)[j] == a[j]; } else { assert (a + b)[j] == b[j - |a|]; }
    }
  }

  /** A built-in handler's name that no table holds can be neither added,
      updated nor removed, and the tables stay as they were. */
  lemma BuiltinsProtected(tables: Tables, handlers: seq<string>, name: string, response: string, parameters: seq<string>)
    requires NamedIn(handlers, name)
    requires !HasMatch(tables.statics, name) && !HasMatch(tables.parameterized, name)
    requires !HasMatch(tables.soundboard, name) && !HasMatch(tables.scripts, name)
    ensures AddOrUpdate(tables, handlers, name, response, parameters, false) == Success(Outcome(false, BuiltinCommandCannotBeChanged, tables))
    ensures AddOrUpdate(tables, handlers, name, response, parameters, true) == Success(Outcome(false, BuiltinCommandCannotBeChanged, tables))
    ensures AddClipAsWritten(tables, handlers, name, response) == Success(Outcome(false, CommandAlreadyExists, tables))
    ensures AddClip(tables, handlers, name, response) == Success(Outcome(false, CommandAlreadyExists, tables))
    ensures Remove(tables, handlers, name) == Success(Outcome(false, BuiltinCommandCannotBeDeleted, tables))
  {
    NoMatchInConcat(tables.statics, tables.parameterized, name);
    assert FirstMatch(tables.statics + tables.parameterized, name).None?;
    assert RemoveCaseInsensitive(tables, name) == Success((false, tables));
  }

  /** Adding a static command and removing it again restores the tables. */
  lemma AddRemoveRoundTrip(tables: Tables, handlers: seq<string>, name: string, response: string)
    requires var r := AddOrUpdate(tables, handlers, name, response, [], false);
             r.Success? && r.value.success
    ensures var added := AddOrUpdate(tables, handlers, name, response, [], false).value.tables;
            Remove(added, handlers, name) == Success(Outcome(true, CommandRemoved, tables))
  {
    var o := AddOrUpdate(tables, handlers, name, response, [], false);
    var commands := tables.statics + tables.parameterized;
    assert FirstMatch(commands, name).None?;
    assert !HasMatch(tables.statics, name) by {
      forall j | 0 <= j < |tables.statics| ensures !Matches(tables.statics[j], name) {
        assert commands[j] == tables.statics[j];
      }
    }
    var cmd := Command(name, StaticBody(response));
    var added := tables.(statics := tables.statics + [cmd]);
    assert o.value.tables == added;
    var t := added.statics;
    assert Matches(t[|tables.statics|], name);
    assert forall j :: 0 <= j < |tables.statics| ==> t[j] == tables.statics[j];
    assert FirstMatch(t, name) == Some(|tables.statics|);
    assert RemoveAt(t, |tables.statics|) == tables.statics;
    assert RemoveFrom(t, name) == Success((true, tables.statics));
    assert added.(statics := tables.statics) == tables;
  }

  /** The same round trip through the chat: `!command add name text`, then
      `!command remove name`. */
  lemma ChatAddRemoveRoundTrip(tables: Tables, handlers: seq<string>, name: string, response: string)
    requires var r := Handle(tables, handlers, ["add", name, response]);
             r.Success? && r.value.Some? && r.value.value.success
    ensures var added := Handle(tables, handlers, ["add", name, response]).value.value.tables;
            Handle(added, handlers, ["remove", name]) == Success(Some(Outcome(true, CommandRemoved, tables)))
  {
    LowerAdd();
    LowerRemove();
    var args := ["add", name, response];
    assert args[3..] == [];
    AddRemoveRoundTrip(tables, handlers, StripBangs(name), response);
  }

  /*** Finding: `add-clip` never adds a clip ***/

  /** As written, `!command add-clip` never adds a clip: a handler's name is
      refused, and every other name makes the database call raise. */
  lemma ClipNeverAdded(tables: Tables, handlers: seq<string>, name: string, clipUrl: string)
    ensures var r := Handle(tables, handlers, ["add-clip", name, clipUrl]);
            r == Failure(UnexpectedKeyword("clip_url"))
            || r == Success(Some(Outcome(false, CommandAlreadyExists, tables)))
  {
    LowerAddClip();
    var args := ["add-clip", name, clipUrl];
    assert args[0] == "add-clip" && args[1] == name && args[2] == clipUrl;
  }

  /** Corrected, a clip under a name no handler and no table uses is added,
      and removing it again restores the tables. */
  lemma ClipAddRemoveRoundTrip(tables: Tables, handlers: seq<string>, name: string, clipUrl: string)
    requires !NamedIn(handlers, name)
    requires !HasMatch(tables.statics, name) && !HasMatch(tables.parameterized, name)
    requires !HasMatch(tables.soundboard, name)
    ensures AddClip(tables, handlers, name, clipUrl).Success?
    ensures var o := AddClip(tables, handlers, name, clipUrl).value;
            o.success && Remove(o.tables, handlers, name) == Success(Outcome(true, CommandRemoved, tables))
  {
    NoMatchNoName(tables.soundboard, name);
    var cmd := Command(name, SoundboardBody(clipUrl));
    var t := tables.soundboard + [cmd];
    var added := tables.(soundboard := t);
    assert AddClip(tables, handlers, name, clipUrl) == Success(Outcome(true, CommandAdded, added));
    assert Matches(t[|tables.soundboard|], name);
    forall j | 0 <= j < |t| && j != |tables.soundboard| ensures !Matches(t[j], name) {
      assert t[j] == tables.soundboard[j];
    }
    RemoveFromSingle(t, |tables.soundboard|, name);
    assert RemoveAt(t, |tables.soundboard|) == tables.soundboard;
    assert RemoveCaseInsensitive(added, name) == Success((true, tables));
  }

  /*** No database error for distinct names ***/

  /** No two rows whose names differ only in case. */
  predicate CaseDistinct(t: seq<Command>) {
    forall i, j :: 0 <= i < j < |t| ==> !EqualsIgnoreCase(t[i].name, t[j].name)
  }

  /** A row without a case-insensitive match has no exact one either. */
  lemma NoMatchNoName(t: seq<Command>, name: string)
    requires !HasMatch(t, name)
    ensures !HasName(t, name)
  {
    forall j | 0 <= j < |t| ensures t[j].name != name {
      assert !Matches(t[j], name);
    }
  }

  lemma RemoveAtKeepsNoMatch(t: seq<Command>, i: nat, name: string)
    requires i < |t| && forall j :: 0 <= j < |t| && j != i ==> !Matches(t[j], name)
    ensures !HasMatch(RemoveAt(t, i), name) && !HasName(RemoveAt(t, i), name)
  {
    var r := RemoveAt(t, i);
    forall k | 0 <= k < |r| ensures !Matches(r[k], name) {
      if k < i { assert r[k] == t[k]; } else { assert r[k] == t[k + 1]; }
    }
    NoMatchNoName(r, name);
  }

  lemma RemoveFromSingle(t: seq<Command>, i: nat, name: string)
    requires i < |t| && Matches(t[i], name)
    requires forall j :: 0 <= j < |t| && j != i ==> !Matches(t[j], name)
    ensures RemoveFrom(t, name) == Success((true, RemoveAt(t, i)))
  {
    assert FirstMatch(t, name) == Some(i);
  }

  /** The rows of `statics + parameterized` other than the `i`th do not
      match the name that row `i` matches. */
  lemma OnlyMatch(commands: seq<Command>, i: nat, name: string)
    requires CaseDistinct(commands) && i < |commands| && Matches(commands[i], name)
    ensures forall j :: 0 <= j < |commands| && j != i ==> !Matches(commands[j], name)
  {
    forall j | 0 <= j < |commands| && j != i ensures !Matches(commands[j], name) {
      if j < i {
        assert !EqualsIgnoreCase(commands[j].name, commands[i].name);
      } else {
        assert !EqualsIgnoreCase(commands[i].name, commands[j].name);
      }
    }
  }

  /** Updating a static command: its row goes and the new one is added. */
  lemma UpdateStaticNeverRaises(tables: Tables, name: string, i: nat)
    requires CaseDistinct(tables.statics + tables.parameterized)
    requires i < |tables.statics| && Matches(tables.statics[i], name)
    ensures var en := tables.statics[i].name;
            RemoveCaseInsensitive(tables, en) == Success((true, tables.(statics := RemoveAt(tables.statics, i))))
            && !HasName(RemoveAt(tables.statics, i), name) && !HasName(tables.parameterized, name)
  {
    var statics := tables.statics;
    var params := tables.parameterized;
    var commands := statics + params;
    var en := statics[i].name;
    assert commands[i] == statics[i];
    OnlyMatch(commands, i, name);
    assert forall c :: Matches(c, en) == Matches(c, name);
    forall j | 0 <= j < |statics| && j != i ensures !Matches(statics[j], name) {
      assert commands[j] == statics[j];
    }
    RemoveFromSingle(statics, i, en);
    RemoveAtKeepsNoMatch(statics, i, name);
    forall j | 0 <= j < |params| ensures !Matches(params[j], name) {
      assert commands[|statics| + j] == params[j];
    }
    NoMatchNoName(params, name);
  }

  /** Updating a parameterized command, which no static one shadows. */
  lemma UpdateParameterizedNeverRaises(tables: Tables, name: string, k: nat)
    requires CaseDistinct(tables.statics + tables.parameterized)
    requires !HasMatch(tables.statics, name)
    requires k < |tables.parameterized| && Matches(tables.parameterized[k], name)
    ensures var en := tables.parameterized[k].name;
            RemoveCaseInsensitive(tables, en) == Success((true, tables.(parameterized := RemoveAt(tables.parameterized, k))))
            && !HasName(tables.statics, name) && !HasName(RemoveAt(tables.parameterized, k), name)
  {
    var statics := tables.statics;
    var params := tables.parameterized;
    var commands := statics + params;
    var en := params[k].name;
    var i := |statics| + k;
    assert commands[i] == params[k];
    OnlyMatch(commands, i, name);
    assert forall c :: Matches(c, en) == Matches(c, name);
    assert RemoveFrom(statics, en) == Success((false, statics));
    forall j | 0 <= j < |params| && j != k ensures !Matches(params[j], name) {
      assert commands[|statics| + j] == params[j];
    }
    RemoveFromSingle(params, k, en);
    RemoveAtKeepsNoMatch(params, k, name);
    NoMatchNoName(statics, name);
  }

  /** In tables whose static and parameterized names are distinct ignoring
      case, adding or updating never makes the database raise. */
  lemma AddOrUpdateNeverRaises(tables: Tables, handlers: seq<string>, name: string, response: string, parameters: seq<string>, isUpdate: bool)
    requires CaseDistinct(tables.statics + tables.parameterized)
    ensures AddOrUpdate(tables, handlers, name, response, parameters, isUpdate).Success?
  {
    var statics := tables.statics;
    var params := tables.parameterized;
    var commands := statics + params;
    var existing := FirstMatch(commands, name);
    if HasMatch(tables.soundboard, name) {
    } else if existing.None? {
      forall j | 0 <= j < |statics| ensures !Matches(statics[j], name) {
        assert commands[j] == statics[j];
      }
      forall j | 0 <= j < |params| ensures !Matches(params[j], name) {
        assert commands[|statics| + j] == params[j];
      }
      NoMatchNoName(statics, name);
      NoMatchNoName(params, name);
    } else if isUpdate {
      var i := existing.value;
      if i < |statics| {
        assert commands[i] == statics[i];
        UpdateStaticNeverRaises(tables, name, i);
      } else {
        forall j | 0 <= j < |statics| ensures !Matches(statics[j], name) {
          assert commands[j] == statics[j];
        }
        assert commands[i] == params[i - |statics|];
        UpdateParameterizedNeverRaises(tables, name, i - |statics|);
      }
    }
  }
}
