/** `sse_encode`: a server-sent event of type `message` whose data lines
    are the lines of the serialised payload. */
module Sse {
  import opened PyStr

  const Crlf: string := "\r\n"
  const EventLine: string := "event: message"
  const DataPrefix: string := "data: "

  /** The payload's lines, or one empty line for a payload without any. */
  function PayloadLines(payload: string): (lines: seq<string>)
    ensures |lines| > 0
  {
    var lines := SplitLines(payload);
    if |lines| == 0 then [""] else lines
  }

  function DataLines(lines: seq<string>): (r: seq<string>)
    ensures |r| == |lines|
    ensures forall i :: 0 <= i < |r| ==> r[i] == DataPrefix + lines[i]
  {
    seq(|lines|, i requires 0 <= i < |lines| => DataPrefix + lines[i])
  }

  /** `sse_encode`, the payload given as its JSON text. */
  function Encode(payload: string): string {
    Join([EventLine] + DataLines(PayloadLines(payload)) + ["", ""], Crlf)
  }

  /** The receiving side: the data lines of one event, their prefix
      removed. */
  function Decode(event: string): seq<string> {
    var parts := SplitOn(event, Crlf);
    if |parts| < 3 then []
    else
      var data := parts[1..|parts| - 2];
      seq(|data|, i requires 0 <= i < |data| => RemovePrefix(data[i], DataPrefix))
  }

  /*** Laws ***/

  lemma {:induction false} JoinAppend(a: seq<string>, b: seq<string>, sep: string)
    requires |a| > 0 && |b| > 0
    ensures Join(a + b, sep) == Join(a, sep) + sep + Join(b, sep)
    decreases |a|
  {
    if |a| == 1 {
      JoinCons(a[0], b, sep);
      assert a + b == [a[0]] + b;
    } else {
      assert a + b == [a[0]] + (a[1..] + b);
      JoinCons(a[0], a[1..] + b, sep);
      JoinAppend(a[1..], b, sep);
      JoinCons(a[0], a[1..], sep);
      assert a == [a[0]] + a[1..];
    }
  }

  /** The event opens with its type line and closes with an empty line:
      the text ends in two line breaks. */
  lemma EncodeFraming(payload: string)
    ensures StartsWith(Encode(payload), EventLine + Crlf)
    ensures EndsWith(Encode(payload), Crlf + Crlf)
  {
    var data := DataLines(PayloadLines(payload));
    var body := [EventLine] + data;
    JoinAppend(body, ["", ""], Crlf);
    JoinCons("", [""], Crlf);
    assert Join(["", ""], Crlf) == Crlf;
    JoinCons(EventLine, data, Crlf);
    var e := Encode(payload);
    assert e == EventLine + Crlf + Join(data, Crlf) + Crlf + Crlf;
    assert e[..|EventLine + Crlf|] == EventLine + Crlf;
    assert e[|e| - 4..] == Crlf + Crlf;
  }

  /** An empty payload becomes a single empty data line. */
  lemma EncodeEmpty()
    ensures Encode("") == "event: message\r\ndata: \r\n\r\n"
  {
    assert SplitLinesKeepEnds("") == [];
    assert |SplitLines("")| == 0;
    assert PayloadLines("") == [""];
    assert DataPrefix + "" == "data: ";
    assert DataLines([""])[0] == "data: ";
    assert DataLines([""]) == ["data: "];
    var parts := [EventLine, "data: ", "", ""];
    assert [EventLine] + ["data: "] + ["", ""] == parts;
    JoinCons(EventLine, parts[1..], Crlf);
    JoinCons("data: ", parts[2..], Crlf);
    JoinCons("", parts[3..], Crlf);
  }

  /** The event's lines carry no line break of their own. */
  lemma PartsHaveNoBreak(payload: string)
    ensures var parts := [EventLine] + DataLines(PayloadLines(payload)) + ["", ""];
            forall i, k :: 0 <= i < |parts| && 0 <= k < |parts[i]| ==> parts[i][k] != Crlf[0]
  {
    var lines := PayloadLines(payload);
    SplitLinesHaveNoBoundary(payload);
    var parts := [EventLine] + DataLines(lines) + ["", ""];
    forall i, k | 0 <= i < |parts| && 0 <= k < |parts[i]| ensures parts[i][k] != Crlf[0] {
      if 1 <= i < |parts| - 2 {
        var line := lines[i - 1];
        assert parts[i] == DataPrefix + line;
        if k >= |DataPrefix| {
          assert parts[i][k] == line[k - |DataPrefix|];
          assert NoLineBoundary(line);
        }
      }
    }
  }

  /** Reading the event back gives the payload's lines: the line breaks
      inside a payload survive as separate data lines. */
  lemma DecodeEncode(payload: string)
    ensures Decode(Encode(payload)) == PayloadLines(payload)
  {
    var lines := PayloadLines(payload);
    var data := DataLines(lines);
    var parts := [EventLine] + data + ["", ""];
    PartsHaveNoBreak(payload);
    SplitOnJoin(parts, Crlf);
    assert parts[1..|parts| - 2] == data;
    var decoded := Decode(Encode(payload));
    assert |decoded| == |lines|;
    forall i | 0 <= i < |lines| ensures decoded[i] == lines[i] {
      assert StartsWith(DataPrefix + lines[i], DataPrefix);
    }
  }
}
