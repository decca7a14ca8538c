/** The dictionary of explained words: a chat message that mentions a word
    gets the word's explanation, at most once per cooldown period and
    platform, and moderators add and remove words with `!dict`. */
module Dictionaries {
  import opened Wrappers
  import opened PyStr

  datatype Entry = Entry(word: string, explanation: string)

  /** Per platform, the instant each word was last explained. */
  type Stamps = map<string, map<string, real>>

  /** The entries in file order, the usage stamps and the cooldown in
      seconds. */
  datatype Dictionary = Dictionary(entries: seq<Entry>, stamps: Stamps, cooldown: real)

  const DefaultCooldown: real := 60.0
  const MaxExplanationsAtOnce: nat := 4

  /** Whether `\bword\b` occurs in a text, ignoring case; the regular
      expression engine is not part of this model. */
  type Matcher = (string, string) -> bool

  /** A platform's stamps; a missing platform has none yet. */
  function StampsOf(stamps: Stamps, platform: string): map<string, real> {
    if platform in stamps then stamps[platform] else map[]
  }

  /** `_is_in_cooldown`, at the instant `now`. */
  predicate InCooldown(d: Dictionary, platform: string, word: string, now: real) {
    var s := StampsOf(d.stamps, platform);
    word in s && now - s[word] < d.cooldown
  }

  /** The entries a message mentions that are not in cooldown, in order. */
  function Due(entries: seq<Entry>, d: Dictionary, platform: string, text: string, now: real, matches: Matcher): (r: seq<Entry>)
    ensures |r| <= |entries|
    ensures forall e :: e in r <==> e in entries && matches(e.word, text) && !InCooldown(d, platform, e.word, now)
  {
    if |entries| == 0 then []
    else
      var e := entries[0];
      assert entries == [e] + entries[1..];
      (if matches(e.word, text) && !InCooldown(d, platform, e.word, now) then [e] else [])
      + Due(entries[1..], d, platform, text, now, matches)
  }

  function Explain(e: Entry): string {
    e.word + ": " + e.explanation
  }

  function Explanations(shown: seq<Entry>): (r: seq<string>)
    ensures |r| == |shown| && forall i :: 0 <= i < |r| ==> r[i] == Explain(shown[i])
  {
    seq(|shown|, i requires 0 <= i < |shown| => Explain(shown[i]))
  }

  /** The note that follows a capped list of explanations. */
  function Note(total: nat): string
    requires total > MaxExplanationsAtOnce
  {
    "Note: Only the first 3 explanations are shown. There were another "
    + NatToString(total - (MaxExplanationsAtOnce - 1)) + " explanations available."
  }

  /** The platform's stamps with every shown word set to `now`. */
  function Stamp(s: map<string, real>, shown: seq<Entry>, now: real): (r: map<string, real>)
    ensures r.Keys == s.Keys + set e | e in shown :: e.word
    ensures forall w :: w in r ==> r[w] == (if exists e :: e in shown && e.word == w then now else s[w])
  {
    if |shown| == 0 then s
    else
      var rest := Stamp(s, shown[1..], now);
      assert forall e :: e in shown <==> e == shown[0] || e in shown[1..];
      rest[shown[0].word := now]
  }

  /** `get_explanations`: nothing when no mentioned word is due; otherwise
      the due explanations, capped at three plus a note when there are more
      than four, and the shown words stamped with `now` on this platform. */
  function GetExplanations(d: Dictionary, platform: string, text: string, now: real, matches: Matcher): (r: (Option<seq<string>>, Dictionary))
    ensures var due := Due(d.entries, d, platform, text, now, matches);
            (r.0.None? <==> |due| == 0)
            && (r.0.None? ==> r.1 == d)
            && (r.0.Some? && |due| <= MaxExplanationsAtOnce ==> r.0.value == Explanations(due))
            && (r.0.Some? && |due| > MaxExplanationsAtOnce ==>
                  r.0.value == Explanations(due[..MaxExplanationsAtOnce - 1]) + [Note(|due|)])
    ensures r.0.Some? ==> 0 < |r.0.value| <= MaxExplanationsAtOnce
    ensures r.1.entries == d.entries && r.1.cooldown == d.cooldown
    ensures forall p :: p != platform ==> StampsOf(r.1.stamps, p) == StampsOf(d.stamps, p)
  {
    var due := Due(d.entries, d, platform, text, now, matches);
    if |due| == 0 then (None, d)
    else
      var capped := |due| > MaxExplanationsAtOnce;
      var shown := if capped then due[..MaxExplanationsAtOnce - 1] else due;
      var stamps := d.stamps[platform := Stamp(StampsOf(d.stamps, platform), shown, now)];
      var replies := Explanations(shown) + (if capped then [Note(|due|)] else []);
      (Some(replies), d.(stamps := stamps))
  }

  /** The dictionary's words (`as_dict` keys). */
  predicate HasWord(d: Dictionary, word: string) {
    exists i :: 0 <= i < |d.entries| && EqualsIgnoreCase(d.entries[i].word, word)
  }

  /** `add_entry` asserts that the word is new, ignoring case. */
  datatype AssertionError = DuplicateWord(word: string)

  function AddEntry(d: Dictionary, word: string, explanation: string): (r: Result<Dictionary, AssertionError>)
    ensures r.Failure? <==> HasWord(d, word)
    ensures r.Success? ==> r.value.entries == d.entries + [Entry(word, explanation)]
                           && r.value.stamps == d.stamps
  {
    if HasWord(d, word) then Failure(DuplicateWord(word))
    else Success(d.(entries := d.entries + [Entry(word, explanation)]))
  }

  /** The entries whose word differs from `word` ignoring case. */
  function Without(entries: seq<Entry>, word: string): (r: seq<Entry>)
    ensures forall e :: e in r <==> e in entries && !EqualsIgnoreCase(e.word, word)
  {
    if |entries| == 0 then []
    else
      assert entries == [entries[0]] + entries[1..];
      (if EqualsIgnoreCase(entries[0].word, word) then [] else [entries[0]]) + Without(entries[1..], word)
  }

  /** `remove_entry` as written: the entries go whatever their case, but
      only the stamp filed under `word` exactly is dropped. */
  function RemoveEntryAsWritten(d: Dictionary, platform: string, word: string): (r: Dictionary)
    ensures !HasWord(r, word)
    ensures forall e :: e in r.entries <==> e in d.entries && !EqualsIgnoreCase(e.word, word)
    ensures StampsOf(r.stamps, platform).Keys == StampsOf(d.stamps, platform).Keys - {word}
    ensures forall w :: w in StampsOf(r.stamps, platform) ==> StampsOf(r.stamps, platform)[w] == StampsOf(d.stamps, platform)[w]
    ensures forall p :: p != platform ==> StampsOf(r.stamps, p) == StampsOf(d.stamps, p)
  {
    var e := Without(d.entries, word);
    assert !HasWord(d.(entries := e), word) by {
      forall i | 0 <= i < |e| ensures !EqualsIgnoreCase(e[i].word, word) {
        assert e[i] in e;
      }
    }
    d.(entries := e, stamps := d.stamps[platform := StampsOf(d.stamps, platform) - {word}])
  }

  /** The platform's stamps without those of any case of `word`. */
  function DropStamps(s: map<string, real>, word: string): (r: map<string, real>)
    ensures r.Keys == set w | w in s && !EqualsIgnoreCase(w, word)
    ensures forall w :: w in r ==> r[w] == s[w]
  {
    map w | w in s && !EqualsIgnoreCase(w, word) :: s[w]
  }

  /** `remove_entry` as intended: the stamps of the removed entries go with
      them, whatever the case of the word they were removed by. */
  function RemoveEntry(d: Dictionary, platform: string, word: string): (r: Dictionary)
    ensures !HasWord(r, word)
    ensures forall e :: e in r.entries <==> e in d.entries && !EqualsIgnoreCase(e.word, word)
    ensures forall w :: w in StampsOf(r.stamps, platform) ==> !EqualsIgnoreCase(w, word)
    ensures forall p :: p != platform ==> StampsOf(r.stamps, p) == StampsOf(d.stamps, p)
  {
    var e := Without(d.entries, word);
    assert !HasWord(d.(entries := e), word) by {
      forall i | 0 <= i < |e| ensures !EqualsIgnoreCase(e[i].word, word) {
        assert e[i] in e;
      }
    }
    d.(entries := e, stamps := d.stamps[platform := DropStamps(StampsOf(d.stamps, platform), word)])
  }

  /** The two removals differ only through stamps filed under another case
      of the word: when the platform has none, they agree. */
  lemma RemoveEntryAgrees(d: Dictionary, platform: string, word: string)
    requires forall w :: w in StampsOf(d.stamps, platform) && EqualsIgnoreCase(w, word) ==> w == word
    ensures RemoveEntryAsWritten(d, platform, word) == RemoveEntry(d, platform, word)
  {
    var s := StampsOf(d.stamps, platform);
    assert s - {word} == DropStamps(s, word);
  }

  /*** The `!dict` handler ***/

  datatype Reply =
    | CannotAdd(word: string)
    | Added(word: string)
    | CannotRemove(word: string)
    | Removed(word: string)

  function Text(r: Reply): string {
    match r
    case CannotAdd(w) => "Cannot add '" + w + "': it already exists in the dictionary."
    case Added(w) => "Added '" + w + "' to the dictionary."
    case CannotRemove(w) => "Cannot remove '" + w + "': it does not exist in the dictionary."
    case Removed(w) => "Removed '" + w + "' from the dictionary."
  }

  /** `DictionaryHandler._add_entry`. */
  function Add(d: Dictionary, word: string, explanation: string): (r: (Option<Reply>, Dictionary))
    ensures r.0.Some?
    ensures r.0.value == Added(word) <==> !HasWord(d, word)
    ensures r.0.value == Added(word) ==> r.1.entries == d.entries + [Entry(word, explanation)] && r.1.stamps == d.stamps
    ensures r.0.value != Added(word) ==> r == (Some(CannotAdd(word)), d)
  {
    match AddEntry(d, word, explanation)
    case Failure(_) => (Some(CannotAdd(word)), d)
    case Success(d') => (Some(Added(word)), d')
  }

  /** `DictionaryHandler._remove_entry`, given the lower-cased word; it
      calls `remove_entry` as written. */
  function Remove(d: Dictionary, platform: string, word: string): (r: (Option<Reply>, Dictionary))
    ensures r.0.Some?
    ensures r.0.value == Removed(word) <==> HasWord(d, word)
    ensures r.0.value == Removed(word) ==> r.1 == RemoveEntryAsWritten(d, platform, word)
    ensures r.0.value != Removed(word) ==> r == (Some(CannotRemove(word)), d)
  {
    if !HasWord(d, word) then (Some(CannotRemove(word)), d)
    else (Some(Removed(word)), RemoveEntryAsWritten(d, platform, word))
  }

  /** `DictionaryHandler.handle_command`: `add <word> <explanation>` and
      `remove <word>` with exactly those argument counts, anything else
      is not handled; `remove` looks the word up in lower case. */
  function Handle(d: Dictionary, platform: string, args: seq<string>): (r: (Option<Reply>, Dictionary))
    ensures r.0.None? <==> |args| == 0 || !((Lower(args[0]) == "add" && |args| == 3) || (Lower(args[0]) == "remove" && |args| == 2))
    ensures r.0.None? ==> r.1 == d
    ensures |args| == 3 && Lower(args[0]) == "add" ==> r == Add(d, args[1], args[2])
    ensures |args| == 2 && Lower(args[0]) == "remove" ==> r == Remove(d, platform, Lower(args[1]))
  {
    if |args| == 0 then (None, d)
    else
      var sub := Lower(args[0]);
      if sub == "add" && |args| == 3 then Add(d, args[1], args[2])
      else if sub == "remove" && |args| == 2 then Remove(d, platform, Lower(args[1]))
      else (None, d)
  }

  /*** Laws ***/

  /** A word stamped less than a cooldown ago is in cooldown; one stamped a
      cooldown or more ago, or never, is not. */
  lemma CooldownExpires(d: Dictionary, platform: string, word: string, now: real)
    ensures word !in StampsOf(d.stamps, platform) ==> !InCooldown(d, platform, word, now)
    ensures (word in StampsOf(d.stamps, platform) && now >= StampsOf(d.stamps, platform)[word] + d.cooldown)
            ==> !InCooldown(d, platform, word, now)
  {
  }

  lemma NoMemberEmpty(s: seq<Entry>)
    ensures (forall e :: e !in s) ==> s == []
  {
    if |s| > 0 {
      assert s[0] in s;
    }
  }

  /** Asking again at the same instant is quiet when nothing was capped:
      every word explained the first time is now in cooldown. */
  lemma RepeatIsQuiet(d: Dictionary, platform: string, text: string, now: real, matches: Matcher)
    requires d.cooldown > 0.0
    requires |Due(d.entries, d, platform, text, now, matches)| <= MaxExplanationsAtOnce
    ensures var d' := GetExplanations(d, platform, text, now, matches).1;
            GetExplanations(d', platform, text, now, matches).0.None?
  {
    var due := Due(d.entries, d, platform, text, now, matches);
    var d' := GetExplanations(d, platform, text, now, matches).1;
    var again := Due(d'.entries, d', platform, text, now, matches);
    if |due| > 0 {
      var s := StampsOf(d.stamps, platform);
      var s' := StampsOf(d'.stamps, platform);
      assert s' == Stamp(s, due, now);
      forall e | e in d'.entries && matches(e.word, text) ensures InCooldown(d', platform, e.word, now) {
        if exists f :: f in due && f.word == e.word {
          assert s'[e.word] == now;
        } else {
          assert e !in due;
          assert InCooldown(d, platform, e.word, now);
          assert s'[e.word] == s[e.word];
        }
      }
      NoMemberEmpty(again);
    }
  }

  /** Words are explained per platform: explaining on one platform leaves
      every other platform's cooldowns as they were. */
  lemma PlatformsIndependent(d: Dictionary, platform: string, other: string, word: string, text: string, now: real, later: real, matches: Matcher)
    requires other != platform
    ensures var d' := GetExplanations(d, platform, text, now, matches).1;
            InCooldown(d', other, word, later) == InCooldown(d, other, word, later)
  {
  }

  lemma AddStep(d: Dictionary, platform: string, word: string, explanation: string)
    requires !HasWord(d, word)
    ensures Handle(d, platform, ["add", word, explanation])
            == (Some(Added(word)), d.(entries := d.entries + [Entry(word, explanation)]))
  {
    LowerOfLowerCase("add");
    var args := ["add", word, explanation];
    assert args[0] == "add" && args[1] == word && args[2] == explanation;
  }

  lemma RemoveStep(d: Dictionary, platform: string, word: string)
    requires HasWord(d, Lower(word))
    ensures Handle(d, platform, ["remove", word]) == (Some(Removed(Lower(word))), RemoveEntryAsWritten(d, platform, Lower(word)))
  {
    LowerOfLowerCase("remove");
    var args := ["remove", word];
    assert args[0] == "remove" && args[1] == word;
    assert Handle(d, platform, args) == Remove(d, platform, Lower(word));
    RemoveFound(d, platform, Lower(word));
  }

  lemma RemoveFound(d: Dictionary, platform: string, word: string)
    requires HasWord(d, word)
    ensures Remove(d, platform, word) == (Some(Removed(word)), RemoveEntryAsWritten(d, platform, word))
  {
  }

  /** Adding through the handler and removing again, in any case, leaves
      the word unknown. */
  lemma AddThenRemove(d: Dictionary, platform: string, word: string, explanation: string)
    requires !HasWord(d, word)
    ensures var added := Handle(d, platform, ["add", word, explanation]);
            added.0 == Some(Added(word))
            && Handle(added.1, platform, ["remove", word]).0 == Some(Removed(Lower(word)))
            && !HasWord(Handle(added.1, platform, ["remove", word]).1, word)
  {
    AddStep(d, platform, word, explanation);
    var d1 := d.(entries := d.entries + [Entry(word, explanation)]);
    LowerIdempotent(word);
    assert d1.entries[|d.entries|] == Entry(word, explanation);
    assert EqualsIgnoreCase(d1.entries[|d.entries|].word, Lower(word));
    RemoveStep(d1, platform, word);
    var d2 := RemoveEntryAsWritten(d1, platform, Lower(word));
    assert !HasWord(d2, Lower(word));
  }

  /*** Finding: a removed word keeps its stamp ***/

  /** A dictionary with `API` explained at instant 0 on platform `twitch`. */
  function Explained(): Dictionary {
    Dictionary([Entry("API", "application programming interface")], map["twitch" := map["API" := 0.0]], DefaultCooldown)
  }

  lemma LowerApi()
    ensures Lower("API") == "api" && Lower("api") == "api" && EqualsIgnoreCase("API", "api")
  {
    LowerOfLowerCase("api");
    assert Lower("API") == [LowerChar('A')] + Lower("PI");
  }

  /** As written, `!dict remove API` passes `api` on, the stamp of `API`
      survives, and a re-added `API` stays silent until the old cooldown
      runs out. */
  lemma RemovedWordKeepsStamp(matches: Matcher)
    requires matches("API", "what is an API")
    ensures var removed := Handle(Explained(), "twitch", ["remove", "API"]);
            var readded := AddEntry(removed.1, "API", "application programming interface");
            removed.0 == Some(Removed("api"))
            && readded.Success?
            && GetExplanations(readded.value, "twitch", "what is an API", 30.0, matches).0.None?
  {
    LowerApi();
    LowerOfLowerCase("remove");
    assert Explained().entries[0].word == "API";
    assert HasWord(Explained(), "api");
    var args := ["remove", "API"];
    assert args[0] == "remove" && args[1] == "API";
    assert Handle(Explained(), "twitch", args) == (Some(Removed("api")), RemoveEntryAsWritten(Explained(), "twitch", "api"));
    var removed := RemoveEntryAsWritten(Explained(), "twitch", "api");
    assert "API" in StampsOf(removed.stamps, "twitch");
    assert StampsOf(removed.stamps, "twitch")["API"] == 0.0;
    assert removed.entries == [] by {
      assert forall e :: e !in removed.entries;
      NoMemberEmpty(removed.entries);
    }
    assert !HasWord(removed, "API");
    var e := Entry("API", "application programming interface");
    assert removed.entries + [e] == [e];
    var readded := removed.(entries := [e]);
    assert AddEntry(removed, "API", "application programming interface") == Success(readded);
    assert InCooldown(readded, "twitch", "API", 30.0);
    var due := Due(readded.entries, readded, "twitch", "what is an API", 30.0, matches);
    assert e !in due;
    NoMemberEmpty(due);
  }

  lemma SingleDue(d: Dictionary, platform: string, text: string, now: real, matches: Matcher)
    requires |Due(d.entries, d, platform, text, now, matches)| == 1
    ensures GetExplanations(d, platform, text, now, matches).0
            == Some([Explain(Due(d.entries, d, platform, text, now, matches)[0])])
  {
    var due := Due(d.entries, d, platform, text, now, matches);
    var r := Explanations(due);
    assert |r| == 1 && r[0] == Explain(due[0]);
    assert r == [Explain(due[0])];
  }

  /** As intended, the removal takes the stamp along, and the re-added word
      is explained at once. */
  lemma RemovedWordDropsStamp(matches: Matcher)
    requires matches("API", "what is an API")
    ensures var removed := RemoveEntry(Explained(), "twitch", Lower("API"));
            var readded := AddEntry(removed, "API", "application programming interface");
            readded.Success?
            && GetExplanations(readded.value, "twitch", "what is an API", 30.0, matches).0
               == Some([Explain(Entry("API", "application programming interface"))])
  {
    LowerApi();
    var removed := RemoveEntry(Explained(), "twitch", "api");
    assert "API" !in StampsOf(removed.stamps, "twitch");
    assert removed.entries == [] by {
      assert forall e :: e !in removed.entries;
      NoMemberEmpty(removed.entries);
    }
    assert !HasWord(removed, "API");
    var e := Entry("API", "application programming interface");
    assert removed.entries + [e] == [e];
    var readded := removed.(entries := [e]);
    assert AddEntry(removed, "API", "application programming interface") == Success(readded);
    assert !InCooldown(readded, "twitch", "API", 30.0);
    var due := Due(readded.entries, readded, "twitch", "what is an API", 30.0, matches);
    assert e in due;
    assert |due| == 1;
    assert due[0] in due;
    assert due[0] == e;
    assert due == [e];
    SingleDue(readded, "twitch", "what is an API", 30.0, matches);
  }
}
