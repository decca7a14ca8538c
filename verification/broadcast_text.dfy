/** Text templates: `{name}` placeholders filled with constants
    (`replace_constants`) and the live-notification template, whose only
    placeholder is `{broadcaster}`. */
module BroadcastText {
  import opened PyStr

  /** `{name}`. */
  function Braced(name: string): (r: string)
    ensures |r| == |name| + 2 && r[0] == '{' && r[|r| - 1] == '}'
  {
    "{" + name + "}"
  }

  lemma BracedInjective(a: string, b: string)
    requires Braced(a) == Braced(b)
    ensures a == b
  {
    assert a == Braced(a)[1..|a| + 1];
    assert b == Braced(b)[1..|b| + 1];
  }

  /** A row of the constants table. */
  datatype Constant = Constant(name: string, text: string)

  /** `replace_constants`: each constant in turn replaces every occurrence
      of its `{name}` in the text produced so far. */
  function ReplaceConstants(text: string, constants: seq<Constant>): (r: string)
    decreases |constants|
  {
    if |constants| == 0 then text
    else ReplaceConstants(Replace(text, Braced(constants[0].name), constants[0].text), constants[1..])
  }

  /** Substituting `a + b` is substituting `a`, then `b` in the result: later
      constants see the text earlier ones produced. */
  lemma {:induction false} ReplaceConstantsAppend(text: string, a: seq<Constant>, b: seq<Constant>)
    ensures ReplaceConstants(text, a + b) == ReplaceConstants(ReplaceConstants(text, a), b)
    decreases |a|
  {
    if |a| == 0 {
      assert a + b == b;
    } else {
      assert (a + b)[0] == a[0];
      assert (a + b)[1..] == a[1..] + b;
      ReplaceConstantsAppend(Replace(text, Braced(a[0].name), a[0].text), a[1..], b);
    }
  }

  /** One constant: the text between the occurrences of `{name}` is kept and
      every occurrence becomes the constant's text. */
  lemma ReplaceOneConstant(text: string, c: Constant)
    ensures ReplaceConstants(text, [c]) == Join(SplitOn(text, Braced(c.name)), c.text)
  {
    ReplaceIsJoinOfSplit(text, Braced(c.name), c.text);
    assert [c][1..] == [];
  }

  /** A text that mentions none of the constants' placeholders is left as it
      is, and so is any text when there are no constants. */
  lemma {:induction false} ReplaceConstantsAbsent(text: string, constants: seq<Constant>)
    requires forall i :: 0 <= i < |constants| ==> !Contains(text, Braced(constants[i].name))
    ensures ReplaceConstants(text, constants) == text
    decreases |constants|
  {
    if |constants| > 0 {
      ReplaceAbsent(text, Braced(constants[0].name), constants[0].text);
      assert forall i :: 0 <= i < |constants| - 1 ==> constants[1..][i] == constants[i + 1];
      ReplaceConstantsAbsent(text, constants[1..]);
    }
  }

  /** A constant whose text is its own placeholder changes nothing. */
  lemma {:induction false} SelfReferentialConstants(text: string, constants: seq<Constant>)
    requires forall i :: 0 <= i < |constants| ==> constants[i].text == Braced(constants[i].name)
    ensures ReplaceConstants(text, constants) == text
    decreases |constants|
  {
    if |constants| > 0 {
      ReplaceBySelf(text, Braced(constants[0].name));
      assert forall i :: 0 <= i < |constants| - 1 ==> constants[1..][i] == constants[i + 1];
      SelfReferentialConstants(text, constants[1..]);
    }
  }

  /*** Live notifications ***/

  const BroadcasterPlaceholder: string := "{broadcaster}"

  /** `LiveNotificationTextTemplate.render`. */
  function Render(template: string, broadcaster: string): string {
    Replace(template, BroadcasterPlaceholder, broadcaster)
  }

  /** Every `{broadcaster}` becomes the name and everything else is kept
      verbatim, other placeholders included. */
  lemma RenderFillsBroadcaster(template: string, broadcaster: string)
    ensures Render(template, broadcaster) == Join(SplitOn(template, BroadcasterPlaceholder), broadcaster)
  {
    ReplaceIsJoinOfSplit(template, BroadcasterPlaceholder, broadcaster);
  }

  /** A template without `{broadcaster}` renders to itself. */
  lemma RenderWithoutPlaceholder(template: string, broadcaster: string)
    requires !Contains(template, BroadcasterPlaceholder)
    ensures Render(template, broadcaster) == template
  {
    ReplaceAbsent(template, BroadcasterPlaceholder, broadcaster);
  }

  datatype StreamLiveEvent = StreamLiveEvent(broadcasterName: string, broadcasterLogin: string, broadcasterId: string)

  datatype LiveNotification = LiveNotification(event: StreamLiveEvent, targetChannel: string, template: string)

  /** `LiveNotification.render_text`. */
  function RenderText(n: LiveNotification): string {
    Render(n.template, n.event.broadcasterName)
  }

  /** The rendered text is the template with the event's display name (not
      its login or id) at every placeholder. */
  lemma RenderTextUsesDisplayName(n: LiveNotification)
    ensures RenderText(n) == Join(SplitOn(n.template, BroadcasterPlaceholder), n.event.broadcasterName)
  {
    RenderFillsBroadcaster(n.template, n.event.broadcasterName);
  }
}
