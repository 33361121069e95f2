/** Reassembly of lines from the chunks of a TCP stream in the antenna adapter. */
module Lines {
  import opened Collections
  import opened Options
  import opened TextSearch

  // str.split with a separator that is not empty.
  function Split(s: string, separator: string): (parts: seq<string>)
    requires separator != ""
    ensures |parts| >= 1
    decreases |s|
  {
    match Find(s, separator)
    case None => [s]
    case Some(i) => [s[..i]] + Split(s[i + |separator|..], separator)
  }

  const NEWLINE := "\n"

  // The lines a stream has completed, and the text after its last newline.
  function Complete(s: string): seq<string> {
    var parts := Split(s, NEWLINE);
    parts[..|parts| - 1]
  }

  function Remainder(s: string): string {
    var parts := Split(s, NEWLINE);
    parts[|parts| - 1]
  }

  // ----- handling a line -----

  // What the handler uses of the antenna's configuration. tokens is the break-up of a position text
  // at the configured delimiters.
  datatype Setup = Setup(delimiter: string, gpsLabel: string, altLabel: string, order: seq<string>, tokens: string -> seq<string>)

  // The location record: None is JavaScript's undefined.
  type Location = map<string, Option<string>>

  function Assign(loc: Location, order: seq<string>, tokens: seq<string>, n: nat): Location
    requires n <= |order|
  {
    if n == 0 then loc
    else Assign(loc, order, tokens, n - 1)[order[n - 1] := if n - 1 < |tokens| then Some(tokens[n - 1]) else None]
  }

  // Fields that are not named stay.
  lemma {:induction false} AssignElsewhere(loc: Location, order: seq<string>, tokens: seq<string>, n: nat, name: string)
    requires n <= |order| && forall k :: 0 <= k < n ==> order[k] != name
    ensures var now := Assign(loc, order, tokens, n);
            (name in now <==> name in loc) && (name in loc ==> now[name] == loc[name])
  {
    if n == 0 {
    } else {
      AssignElsewhere(loc, order, tokens, n - 1, name);
    }
  }

  // Every named field gets the token at its position, the last one if a name repeats.
  lemma {:induction false} AssignAt(loc: Location, order: seq<string>, tokens: seq<string>, n: nat, i: nat)
    requires i < n <= |order| && forall k :: i < k < n ==> order[k] != order[i]
    ensures var now := Assign(loc, order, tokens, n);
            order[i] in now && now[order[i]] == if i < |tokens| then Some(tokens[i]) else None
  {
    if i == n - 1 {
    } else {
      AssignAt(loc, order, tokens, n - 1, i);
    }
  }

  // A line of label, delimiter and value. The longitude's direction is set to W on both branches.
  function Handle(setup: Setup, loc: Location, line: string): Location
    requires setup.delimiter != ""
  {
    var fields := Split(line, setup.delimiter);
    if |fields| >= 2 && fields[0] == setup.gpsLabel then
      Assign(loc, setup.order, setup.tokens(fields[1]), |setup.order|)
        ["latDir" := Some(if 'S' in fields[1] then "S" else "N")]
        ["longDir" := Some("W")]
    else if |fields| >= 2 && fields[0] == setup.altLabel then loc["ALT" := Some(fields[1])]
    else loc
  }

  // The code never finds an eastern longitude: the direction shown is the text's own if and only if
  // the text says W.
  lemma LongitudeIff(setup: Setup, loc: Location, line: string)
    requires setup.delimiter != ""
    requires var fields := Split(line, setup.delimiter); |fields| >= 2 && fields[0] == setup.gpsLabel
    ensures var text := Split(line, setup.delimiter)[1];
            Handle(setup, loc, line)["longDir"] == Some(if 'W' in text then "W" else "E") <==> 'W' in text
  {
  }

  // A position line sets the named fields to their tokens, then the directions, and nothing else.
  lemma PositionLine(setup: Setup, loc: Location, line: string, name: string)
    requires setup.delimiter != ""
    requires var fields := Split(line, setup.delimiter); |fields| >= 2 && fields[0] == setup.gpsLabel
    ensures var text, now := Split(line, setup.delimiter)[1], Handle(setup, loc, line);
            && "latDir" in now && now["latDir"] == Some(if 'S' in text then "S" else "N")
            && "longDir" in now && now["longDir"] == Some("W")
            && (name != "latDir" && name != "longDir" ==>
                  && (name !in setup.order ==> (name in now <==> name in loc) && (name in loc ==> now[name] == loc[name]))
                  && forall i :: 0 <= i < |setup.order| && setup.order[i] == name && name !in setup.order[i + 1..] ==>
                       name in now && now[name] == if i < |setup.tokens(text)| then Some(setup.tokens(text)[i]) else None)
  {
    var tokens := setup.tokens(Split(line, setup.delimiter)[1]);
    if name !in setup.order { AssignElsewhere(loc, setup.order, tokens, |setup.order|, name); }
    forall i | 0 <= i < |setup.order| && setup.order[i] == name && name !in setup.order[i + 1..]
      ensures var now := Assign(loc, setup.order, tokens, |setup.order|);
              name in now && now[name] == if i < |tokens| then Some(tokens[i]) else None
    {
      forall k | i < k < |setup.order| ensures setup.order[k] != name { assert setup.order[k] == setup.order[i + 1..][k - i - 1]; }
      AssignAt(loc, setup.order, tokens, |setup.order|, i);
    }
  }

  // An altitude line sets the altitude and nothing else; any other line, or one without a value,
  // changes nothing.
  lemma OtherLine(setup: Setup, loc: Location, line: string)
    requires setup.delimiter != ""
    ensures var fields, now := Split(line, setup.delimiter), Handle(setup, loc, line);
            && (|fields| >= 2 && fields[0] != setup.gpsLabel && fields[0] == setup.altLabel ==> now == loc["ALT" := Some(fields[1])])
            && (|fields| < 2 || (fields[0] != setup.gpsLabel && fields[0] != setup.altLabel) ==> now == loc)
  {
  }

  // Pieces put together with a separator between them.
  function Rejoined(parts: seq<string>, separator: string): string
    requires parts != []
  {
    if |parts| == 1 then parts[0] else parts[0] + (separator + Rejoined(parts[1..], separator))
  }

  // The pieces are cut from left to right: before the end of a piece no separator begins.
  ghost predicate Cuts(parts: seq<string>, separator: string)
    requires parts != []
  {
    if |parts| == 1 then Find(parts[0], separator).None?
    else Find(parts[0] + separator, separator) == Some(|parts[0]|) && Cuts(parts[1..], separator)
  }

  // One step of a split: the first piece, and the rest if there is one.
  lemma SplitOnce(s: string, separator: string) returns (more: bool, first: string, rest: string)
    requires separator != ""
    ensures !more ==> Split(s, separator) == [s] && Find(s, separator).None?
    ensures more ==> Split(s, separator) == [first] + Split(rest, separator) && |rest| < |s|
    ensures more ==> first + (separator + rest) == s && Find(first + separator, separator) == Some(|first|)
  {
    more, first, rest := false, s, "";
    if Find(s, separator).Some? {
      var i := Find(s, separator).value;
      more, first, rest := true, s[..i], s[i + |separator|..];
      CutFirst(s, separator, i);
      CutInTwo(s, separator, i, rest);
    }
  }

  // A split text is cut at its separators, and joined again it is the text.
  lemma {:induction false} SplitCuts(s: string, separator: string)
    requires separator != ""
    ensures Rejoined(Split(s, separator), separator) == s && Cuts(Split(s, separator), separator)
    decreases |s|
  {
    var more, first, rest := SplitOnce(s, separator);
    if more {
      SplitCuts(rest, separator);
      Prepended(first, Split(rest, separator), separator);
    }
  }

  lemma CutInTwo(s: string, separator: string, i: nat, rest: string)
    requires OccursAt(s, separator, i) && rest == s[i + |separator|..]
    ensures s[..i] + (separator + rest) == s
  {
    assert s == s[..i] + (s[i..i + |separator|] + s[i + |separator|..]);
  }

  lemma Prepended(part: string, tail: seq<string>, separator: string)
    requires tail != []
    ensures Rejoined([part] + tail, separator) == part + (separator + Rejoined(tail, separator))
    ensures Cuts([part] + tail, separator) <==> Find(part + separator, separator) == Some(|part|) && Cuts(tail, separator)
  {
    assert ([part] + tail)[1..] == tail;
  }

  lemma CutFirst(s: string, separator: string, i: nat)
    requires Find(s, separator) == Some(i)
    ensures Find(s[..i] + separator, separator) == Some(i)
  {
    var t := s[..i] + separator;
    assert t == s[..i + |separator|];
    forall j: nat | j < i ensures !OccursAt(t, separator, j) {
      assert !OccursAt(s, separator, j);
      if j + |separator| <= |t| { assert t[j..j + |separator|] == s[j..j + |separator|]; }
    }
    assert t[i..i + |separator|] == separator;
    FindIs(t, separator, i);
  }

  function HandleAll(setup: Setup, loc: Location, lines: seq<string>): Location
    requires setup.delimiter != ""
  {
    if lines == [] then loc
    else Handle(setup, HandleAll(setup, loc, lines[..|lines| - 1]), lines[|lines| - 1])
  }

  lemma HandleOneMore(setup: Setup, loc: Location, lines: seq<string>, last: string)
    requires setup.delimiter != ""
    ensures HandleAll(setup, loc, lines + [last]) == Handle(setup, HandleAll(setup, loc, lines), last)
  {
    assert (lines + [last])[..|lines|] == lines;
  }

  lemma {:induction false} HandleAppend(setup: Setup, loc: Location, first: seq<string>, second: seq<string>)
    requires setup.delimiter != ""
    ensures HandleAll(setup, loc, first + second) == HandleAll(setup, HandleAll(setup, loc, first), second)
    decreases second
  {
    if second == [] {
      assert first + second == first;
    } else {
      var init, last := second[..|second| - 1], second[|second| - 1];
      assert second == init + [last];
      HandleAppend(setup, loc, first, init);
      HandleOneMore(setup, loc, first + init, last);
      HandleOneMore(setup, HandleAll(setup, loc, first), init, last);
      assert first + second == (first + init) + [last];
    }
  }

  // ----- lines of a stream -----

  // Nothing is lost: the lines and the remainder put together again are the stream.
  function Join(lines: seq<string>): string {
    if lines == [] then "" else lines[0] + NEWLINE + Join(lines[1..])
  }

  lemma NewlineAt(s: string, i: nat)
    ensures OccursAt(s, NEWLINE, i) <==> i < |s| && s[i] == '\n'
  {
  }

  // i is the position of the first newline.
  predicate FirstNewline(s: string, i: nat) { i < |s| && s[i] == '\n' && '\n' !in s[..i] }

  lemma {:induction false} NewlineExists(s: string) returns (i: nat)
    requires '\n' in s
    ensures FirstNewline(s, i)
  {
    if s[0] == '\n' {
      i := 0;
    } else {
      assert s == [s[0]] + s[1..];
      i := NewlineExists(s[1..]);
      i := i + 1;
      assert s[..i] == [s[0]] + s[1..][..i - 1];
    }
  }

  lemma FindNewline(s: string, i: nat)
    requires FirstNewline(s, i)
    ensures Find(s, NEWLINE) == Some(i)
  {
    NewlineAt(s, i);
    forall j | 0 <= j < i ensures !OccursAt(s, NEWLINE, j) {
      NewlineAt(s, j);
      assert s[..i][j] == s[j];
    }
    FindIs(s, NEWLINE, i);
  }

  // The first newline ends the first line.
  lemma FirstLine(s: string, i: nat)
    requires FirstNewline(s, i)
    ensures Complete(s) == [s[..i]] + Complete(s[i + 1..]) && Remainder(s) == Remainder(s[i + 1..])
  {
    FindNewline(s, i);
    assert Split(s, NEWLINE) == [s[..i]] + Split(s[i + 1..], NEWLINE);
  }

  // Without a newline nothing is complete.
  lemma NoLine(s: string)
    requires '\n' !in s
    ensures Complete(s) == [] && Remainder(s) == s
  {
    if Find(s, NEWLINE).Some? { NewlineAt(s, Find(s, NEWLINE).value); }
  }

  // No line and no remainder has a newline, and joined they give back the stream.
  lemma {:induction false} LinesRejoin(s: string)
    ensures Join(Complete(s)) + Remainder(s) == s
    ensures '\n' !in Remainder(s) && forall l <- Complete(s) :: '\n' !in l
    decreases |s|
  {
    if '\n' in s {
      var i := NewlineExists(s);
      FirstLine(s, i);
      var rest := s[i + 1..];
      LinesRejoin(rest);
      RejoinAt(s, i, Join(Complete(rest)), Remainder(rest));
    } else {
      NoLine(s);
      assert Join([]) + s == s;
    }
  }

  lemma RejoinAt(s: string, i: nat, first: string, last: string)
    requires i < |s| && s[i] == '\n' && s[i + 1..] == first + last
    ensures (s[..i] + NEWLINE + first) + last == s
  {
  }

  lemma MoreText(a: string, b: string, i: nat)
    requires FirstNewline(a, i)
    ensures FirstNewline(a + b, i) && (a + b)[..i] == a[..i] && (a + b)[i + 1..] == a[i + 1..] + b
  {
  }

  // More text completes the remainder, and only the remainder.
  lemma {:induction false} LinesExtend(a: string, b: string)
    ensures Complete(a + b) == Complete(a) + Complete(Remainder(a) + b)
    ensures Remainder(a + b) == Remainder(Remainder(a) + b)
    decreases |a|
  {
    if '\n' in a {
      var i := NewlineExists(a);
      var rest := a[i + 1..];
      FirstLine(a, i);
      LinesExtend(rest, b);
      MoreText(a, b, i);
      FirstLine(a + b, i);
      Regroup([a[..i]], Complete(rest), Complete(Remainder(rest) + b));
    } else {
      NoLine(a);
      assert [] + Complete(a + b) == Complete(a + b);
    }
  }

  // ----- the data handler over a stream -----

  datatype State = State(line: string, loc: Location)

  function Receive(setup: Setup, st: State, chunk: string): State
    requires setup.delimiter != ""
  {
    State(Remainder(st.line + chunk), HandleAll(setup, st.loc, Complete(st.line + chunk)))
  }

  function ReceiveAll(setup: Setup, st: State, chunks: seq<string>): State
    requires setup.delimiter != ""
  {
    if chunks == [] then st else Receive(setup, ReceiveAll(setup, st, chunks[..|chunks| - 1]), chunks[|chunks| - 1])
  }

  function Stream(chunks: seq<string>): string {
    if chunks == [] then "" else Stream(chunks[..|chunks| - 1]) + chunks[|chunks| - 1]
  }

  // For every stream and every cut into chunks the final location is the handler folded over the
  // complete lines of the whole stream, and the kept text is what follows its last newline.
  lemma {:induction false} LineReassembly(setup: Setup, loc: Location, chunks: seq<string>)
    requires setup.delimiter != ""
    ensures ReceiveAll(setup, State("", loc), chunks) ==
            State(Remainder(Stream(chunks)), HandleAll(setup, loc, Complete(Stream(chunks))))
  {
    if chunks == [] {
      NoLine("");
    } else {
      var first, chunk := chunks[..|chunks| - 1], chunks[|chunks| - 1];
      LineReassembly(setup, loc, first);
      LinesExtend(Stream(first), chunk);
      HandleAppend(setup, loc, Complete(Stream(first)), Complete(Remainder(Stream(first)) + chunk));
    }
  }

  // An empty line changes nothing, so it is harmless that the text after a final newline is handed
  // to the handler too.
  lemma EmptyLineIsIgnored(setup: Setup, loc: Location)
    requires setup.delimiter != ""
    ensures Handle(setup, loc, "") == loc
  {
  }

  class Receiver {
    const setup: Setup
    var line: string
    var loc: Location

    constructor (setup: Setup)
      ensures this.setup == setup && line == "" && loc == map[]
    {
      this.setup := setup;
      line, loc := "", map[];
    }

    // One line of the forEach.
    method HandleLine(text: string)
      requires setup.delimiter != ""
      modifies this`loc
      ensures loc == Handle(setup, old(loc), text)
    {
      var fields := Split(text, setup.delimiter);
      if |fields| >= 2 && fields[0] == setup.gpsLabel {
        var tokens := setup.tokens(fields[1]);
        for i := 0 to |setup.order|
          invariant loc == Assign(old(loc), setup.order, tokens, i)
        {
          loc := loc[setup.order[i] := if i < |tokens| then Some(tokens[i]) else None];
        }
        loc := loc["latDir" := Some(if 'S' in fields[1] then "S" else "N")];
        loc := loc["longDir" := Some("W")];
      } else if |fields| >= 2 && fields[0] == setup.altLabel {
        loc := loc["ALT" := Some(fields[1])];
      }
    }

    // The handler of the socket's data event.
    method OnData(chunk: string)
      requires setup.delimiter != ""
      modifies this
      ensures State(line, loc) == Receive(setup, old(State(line, loc)), chunk)
    {
      ghost var all := line + chunk;
      line := line + chunk;
      if '\n' in line {
        var parts := Split(line, NEWLINE);
        var over := "";
        EndOfText(all);
        if |parts| >= 2 && line[|line| - 1] != '\n' {
          over := parts[|parts| - 1];
          parts := parts[..|parts| - 1];
        }
        line := over;
        HandleLines(parts);
        AllParts(setup, old(loc), Complete(all), Remainder(all));
      } else {
        NoLine(all);
      }
    }

    // The forEach over the lines.
    method HandleLines(parts: seq<string>)
      requires setup.delimiter != ""
      modifies this`loc
      ensures loc == HandleAll(setup, old(loc), parts)
    {
      for k := 0 to |parts|
        invariant loc == HandleAll(setup, old(loc), parts[..k])
      {
        assert parts[..k + 1][..k] == parts[..k];
        HandleLine(parts[k]);
      }
      assert parts[..|parts|] == parts;
    }
  }

  // The last part of a text with a newline is empty exactly if the text ends in one.
  lemma {:induction false} EndOfText(s: string)
    requires '\n' in s
    ensures |Complete(s)| >= 1
    ensures Remainder(s) == "" <==> s[|s| - 1] == '\n'
    decreases |s|
  {
    var i := NewlineExists(s);
    var rest := s[i + 1..];
    FirstLine(s, i);
    if rest != "" { assert rest[|rest| - 1] == s[|s| - 1]; }
    if '\n' in rest {
      EndOfText(rest);
    } else {
      NoLine(rest);
    }
  }

  // Handling an empty last part with the lines changes nothing.
  lemma AllParts(setup: Setup, loc: Location, lines: seq<string>, last: string)
    requires setup.delimiter != ""
    ensures last == "" ==> HandleAll(setup, loc, lines + [last]) == HandleAll(setup, loc, lines)
  {
    HandleOneMore(setup, loc, lines, last);
    EmptyLineIsIgnored(setup, HandleAll(setup, loc, lines));
  }
}
