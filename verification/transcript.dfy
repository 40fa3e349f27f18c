/** Transcript entries as the Meet API returns them, their normalised form,
    and the plain text handed to the extraction prompt. An absent JSON key
    is `None`. */
module Transcript {
  import opened Items
  import PyStr

  datatype Speaker = Speaker(displayName: Option<string>, obfuscatedExternalUserId: Option<string>)

  /** One `transcriptEntries` element. */
  datatype RawEntry = RawEntry(
    startTime: Option<string>,
    endTime: Option<string>,
    speaker: Option<Speaker>,
    text: Option<string>)

  /** The output of `normalize_entry`: every key present, speaker and text
      always strings. */
  datatype Entry = Entry(startTime: Option<string>, endTime: Option<string>, speaker: string, text: string)

  /** Python truthiness of an optional string: present and non-empty. */
  predicate Truthy(s: Option<string>)
  {
    s.Some? && s.value != ""
  }

  /** The `or` chain of `normalize_entry`: the display name, else the
      obfuscated user id, else "Speaker"; an empty string counts as
      missing. */
  function SpeakerName(sp: Option<Speaker>): (name: string)
    ensures name != ""
    ensures sp.Some? && Truthy(sp.value.displayName) ==> name == sp.value.displayName.value
    ensures sp.Some? && !Truthy(sp.value.displayName) && Truthy(sp.value.obfuscatedExternalUserId) ==>
      name == sp.value.obfuscatedExternalUserId.value
    ensures sp.None? || (!Truthy(sp.value.displayName) && !Truthy(sp.value.obfuscatedExternalUserId)) ==>
      name == "Speaker"
  {
    if sp.Some? && Truthy(sp.value.displayName) then sp.value.displayName.value
    else if sp.Some? && Truthy(sp.value.obfuscatedExternalUserId) then sp.value.obfuscatedExternalUserId.value
    else "Speaker"
  }

  /** `normalize_entry`: times are passed through as they are (possibly
      absent), the speaker is the name the fallback chain picks (never
      empty), and a missing text becomes "". */
  function Normalize(e: RawEntry): (n: Entry)
    ensures n.startTime == e.startTime && n.endTime == e.endTime
    ensures n.speaker == SpeakerName(e.speaker) && n.speaker != ""
    ensures e.text.Some? ==> n.text == e.text.value
    ensures e.text.None? ==> n.text == ""
  {
    Entry(e.startTime, e.endTime, SpeakerName(e.speaker), if e.text.Some? then e.text.value else "")
  }

  /** An f-string field: an absent value prints as `None`. */
  function Show(o: Option<string>): string
  {
    if o.Some? then o.value else "None"
  }

  /** One line of `as_text`: `[start] speaker: text`. */
  function Line(e: Entry): (line: string)
    ensures |line| > 0 && line[0] == '['
  {
    "[" + Show(e.startTime) + "] " + e.speaker + ": " + e.text
  }

  /** No occurrence of `c` in `s`. */
  predicate Lacks(s: string, c: char)
  {
    forall k :: 0 <= k < |s| ==> s[k] != c
  }

  /** Reads a line of the `[start] speaker: text` shape back into its three
      fields: the start time up to the first "] ", the speaker up to the
      next ": ", and the text after it. */
  function ReadLine(line: string): Option<(string, string, string)>
  {
    if line == [] || line[0] != '[' then None
    else
      var c := PyStr.Find(line, "] ", 1);
      if c < 0 then None
      else
        var d := PyStr.Find(line, ": ", c + 2);
        if d < 0 then None
        else Some((line[1..c], line[c + 2..d], line[d + 2..]))
  }

  /** The "] " after the start time is the first one, when the start time
      holds no `]`. */
  lemma LineStartEnds(e: Entry)
    requires Lacks(Show(e.startTime), ']')
    ensures PyStr.Find(Line(e), "] ", 1) == 1 + |Show(e.startTime)|
  {
    var line, st := Line(e), Show(e.startTime);
    var a := 1 + |st|;
    assert line[a..a + 2] == "] ";
    forall j | 1 <= j < a
      ensures line[j] != "] "[0]
    {
      assert line[j] == st[j - 1];
    }
    PyStr.FindFirst(line, "] ", 1, a);
  }

  /** The ": " after the speaker is the first one past the start time, when
      the speaker holds no `:`. */
  lemma LineSpeakerEnds(e: Entry)
    requires Lacks(e.speaker, ':')
    ensures var a := 1 + |Show(e.startTime)|;
      PyStr.Find(Line(e), ": ", a + 2) == a + 2 + |e.speaker|
  {
    var line, st := Line(e), Show(e.startTime);
    var a := 1 + |st|;
    var b := a + 2 + |e.speaker|;
    assert line[b..b + 2] == ": ";
    forall j | a + 2 <= j < b
      ensures line[j] != ": "[0]
    {
      assert line[j] == e.speaker[j - a - 2];
    }
    PyStr.FindFirst(line, ": ", a + 2, b);
  }

  /** Where the three fields sit in a line. */
  lemma LineSlices(e: Entry)
    ensures var line, st := Line(e), Show(e.startTime);
      var a := 1 + |st|;
      var b := a + 2 + |e.speaker|;
      b + 2 <= |line| && line[1..a] == st && line[a + 2..b] == e.speaker && line[b + 2..] == e.text
  {
    var line, st := Line(e), Show(e.startTime);
    var head := "[" + st + "] ";
    var a := 1 + |st|;
    var b := a + 2 + |e.speaker|;
    assert line == (head + e.speaker) + (": " + e.text);
    assert line[1..a] == head[1..a] == st;
    assert line[a + 2..b] == (head + e.speaker)[|head|..] == e.speaker;
    assert line[b + 2..] == (": " + e.text)[2..] == e.text;
  }

  /** A line reads back into the start time as printed, the speaker and the
      text, as long as the start time holds no `]` and the speaker no `:`;
      the text may hold anything. */
  lemma LineReadsBack(e: Entry)
    requires Lacks(Show(e.startTime), ']') && Lacks(e.speaker, ':')
    ensures ReadLine(Line(e)) == Some((Show(e.startTime), e.speaker, e.text))
  {
    LineStartEnds(e);
    LineSpeakerEnds(e);
    LineSlices(e);
  }

  /** The lines of a transcript, one per entry, in order. */
  function Lines(entries: seq<Entry>): (lines: seq<string>)
    ensures |lines| == |entries|
    ensures forall i :: 0 <= i < |entries| ==> lines[i] == Line(entries[i])
  {
    seq(|entries|, i requires 0 <= i < |entries| => Line(entries[i]))
  }

  /** `"\n".join(lines)`. */
  function Join(lines: seq<string>): string
  {
    if lines == [] then ""
    else if |lines| == 1 then lines[0]
    else lines[0] + "\n" + Join(lines[1..])
  }

  /** `s.split("\n")`: the pieces between newlines, always at least one. */
  function Split(s: string): (parts: seq<string>)
    ensures |parts| >= 1
    decreases |s|
  {
    var i := PyStr.Find(s, "\n", 0);
    if i < 0 then [s] else [s[..i]] + Split(s[i + 1..])
  }

  predicate NoNewline(s: string)
  {
    forall k :: 0 <= k < |s| ==> s[k] != '\n'
  }

  /** `find` of a newline in `a + "\n" + b` stops right after `a` when `a`
      holds none; in a text without newlines it finds nothing. */
  lemma FindNewline(a: string, b: string)
    requires NoNewline(a)
    ensures PyStr.Find(a + "\n" + b, "\n", 0) == |a|
    ensures PyStr.Find(a, "\n", 0) == -1
  {
    var s := a + "\n" + b;
    assert s[|a|..|a| + 1] == "\n";
    forall j | 0 <= j < |a|
      ensures s[j] != "\n"[0]
    {
      assert s[j] == a[j];
    }
    PyStr.FindFirst(s, "\n", 0, |a|);
  }

  /** Splitting the joined text at newlines gives the lines back, as long
      as no line holds a newline of its own. */
  lemma {:induction false} SplitJoin(lines: seq<string>)
    requires |lines| >= 1
    requires forall i :: 0 <= i < |lines| ==> NoNewline(lines[i])
    ensures Split(Join(lines)) == lines
    decreases |lines|
  {
    if |lines| == 1 {
      FindNewline(lines[0], "");
    } else {
      var rest := Join(lines[1..]);
      FindNewline(lines[0], rest);
      var s := lines[0] + "\n" + rest;
      assert s[..|lines[0]|] == lines[0];
      assert s[|lines[0]| + 1..] == rest;
      SplitJoin(lines[1..]);
      assert lines == [lines[0]] + lines[1..];
    }
  }

  /** An entry whose fields hold no newline prints as one line. */
  predicate SingleLine(e: Entry)
  {
    NoNewline(Show(e.startTime)) && NoNewline(e.speaker) && NoNewline(e.text)
  }

  lemma LineHasNoNewline(e: Entry)
    requires SingleLine(e)
    ensures NoNewline(Line(e))
  {
    var line := Line(e);
    var a := "[" + Show(e.startTime) + "] ";
    var b := a + e.speaker + ": ";
    forall k | 0 <= k < |line|
      ensures line[k] != '\n'
    {
      if k < |a| {
        if 1 <= k < 1 + |Show(e.startTime)| {
          assert line[k] == Show(e.startTime)[k - 1];
        }
      } else if k < |b| {
        if k < |a| + |e.speaker| {
          assert line[k] == e.speaker[k - |a|];
        }
      } else {
        assert line[k] == e.text[k - |b|];
      }
    }
  }

  /** The text of a non-empty transcript whose entries are single lines
      splits back into exactly one line per entry, in order. */
  lemma TextLinesRoundTrip(entries: seq<Entry>)
    requires |entries| >= 1
    requires forall i :: 0 <= i < |entries| ==> SingleLine(entries[i])
    ensures Split(Join(Lines(entries))) == Lines(entries)
    ensures |Split(Join(Lines(entries)))| == |entries|
  {
    forall i | 0 <= i < |entries|
      ensures NoNewline(Lines(entries)[i])
    {
      LineHasNoNewline(entries[i]);
    }
    SplitJoin(Lines(entries));
  }

  /** An entry without a start time prints as `[None] speaker: text`. */
  lemma MissingStartPrintsNone(e: RawEntry)
    requires e.startTime.None?
    ensures Line(Normalize(e))[..7] == "[None] "
  {
  }

  /** The comprehension that normalises every fetched entry, in order:
      every entry keeps its place and is the normalised raw entry, so its
      speaker is never empty. */
  function NormalizeAll(raw: seq<RawEntry>): (entries: seq<Entry>)
    ensures |entries| == |raw|
    ensures forall i :: 0 <= i < |raw| ==> entries[i] == Normalize(raw[i])
    ensures forall i :: 0 <= i < |raw| ==> entries[i].speaker != "" && entries[i].startTime == raw[i].startTime
  {
    seq(|raw|, i requires 0 <= i < |raw| => Normalize(raw[i]))
  }

  /** `as_text`: collect one line per entry, then join them with newlines. */
  method AsText(entries: seq<Entry>) returns (text: string)
    ensures text == Join(Lines(entries))
    ensures entries == [] ==> text == ""
  {
    var lines: seq<string> := [];
    for i := 0 to |entries|
      invariant lines == Lines(entries[..i])
    {
      lines := lines + [Line(entries[i])];
    }
    assert entries[..|entries|] == entries;
    text := Join(lines);
  }
}
