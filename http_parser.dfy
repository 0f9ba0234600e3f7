/** The deliberately permissive HTTP request parser of the status server. Each call appends
    the new bytes to a retained buffer and re-reads the whole buffer with a string stream:
    three words (verb, location, version), then getline after getline, each line either the
    lone "\r" (skipped) or `Name: Value` (kept), the first other line ending the block. As
    soon as verb and location are both present the request is delivered and the buffer
    cleared; no blank line is awaited. More than 1024 distinct names abort the request. */
module HttpParser {
  import opened Text
  import opened IStream

  /** The largest number of distinct header names one request may carry. */
  const MaxHeaders: nat := 1024

  datatype Request = Request(verb: string, location: string, headers: map<string, string>)

  /** What one call of the parser leads to: no callback yet, the callback with a request,
      or the "Too many HTTP headers sent in request" exception. */
  datatype Outcome = NotReady | Delivered(request: Request) | TooManyHeaders

  datatype HeaderBlock = Collected(headers: map<string, string>) | Overflow

  /** A header line split at its first ": ". */
  function SplitHeader(line: string): (r: Option<(string, string)>)
    ensures r.None? <==> !Contains(line, ": ")
    ensures r.Some? ==> line == r.value.0 + ": " + r.value.1 && !Contains(r.value.0, ": ")
  {
    match Find(line, ": ", 0)
    case None => None
    case Some(d) =>
      var name := line[..d];
      assert MatchAt(line, ": ", d);
      assert line == name + ": " + line[d + 2..];
      assert !Contains(name, ": ") by {
        forall j: nat | MatchAt(name, ": ", j) ensures false {
          assert line[j..j + 2] == name[j..j + 2];
          assert MatchAt(line, ": ", j);
        }
      }
      Some((name, line[d + 2..]))
  }

  /** The header loop of the parser, over the lines getline returns. */
  function CollectHeaders(lines: seq<string>, acc: map<string, string>): HeaderBlock
    decreases |lines|
  {
    if lines == [] then Collected(acc)
    else if lines[0] == "\r" then CollectHeaders(lines[1..], acc)
    else match SplitHeader(lines[0])
      case None => Collected(acc)
      case Some((name, value)) =>
        var acc' := acc[name := value];
        if |acc'| > MaxHeaders then Overflow else CollectHeaders(lines[1..], acc')
  }

  /** What a call of the parser does with its whole buffer. */
  function ParseRequest(buffer: string): Outcome
  {
    var verb := ReadWord(Good(buffer));
    var location := ReadWord(verb.next);
    var version := ReadWord(location.next);
    if verb.text == [] || location.text == [] then NotReady
    else match CollectHeaders(Lines(version.next), map[])
      case Overflow => TooManyHeaders
      case Collected(headers) => Delivered(Request(verb.text, location.text, headers))
  }

  /** The parser object; one per connection, created on the first decrypted record. */
  class Parser {
    var buffer: string

    constructor ()
      ensures buffer == []
    {
      buffer := [];
    }

    /** Appends the bytes, then tries to read one request from the whole buffer. */
    method Consume(input: seq<byte>) returns (outcome: Outcome)
      modifies this
      ensures outcome == ParseRequest(old(buffer) + AsChars(input))
      ensures buffer == if outcome.Delivered? then [] else old(buffer) + AsChars(input)
      ensures outcome.Delivered? ==> |outcome.request.headers| <= MaxHeaders
    {
      buffer := buffer + AsChars(input);

      var verb := ReadWord(Good(buffer));
      var location := ReadWord(verb.next);
      var version := ReadWord(location.next);
      if verb.text == [] || location.text == [] {
        return NotReady;
      }

      var st := version.next;
      var headers: map<string, string> := map[];
      while true
        invariant |headers| <= MaxHeaders
        invariant CollectHeaders(Lines(st), headers) == CollectHeaders(Lines(version.next), map[])
        decreases Size(st)
      {
        ghost var before := st;
        var line := ReadLine(st);
        st := line.next;
        assert Lines(before) == if before.Failed? || before.rest == [] then [] else [line.text] + Lines(st);
        if line.text == "\r" {
          continue;
        }
        var split := SplitHeader(line.text);
        if split.None? {
          assert CollectHeaders(Lines(before), headers) == Collected(headers);
          break;
        }
        headers := headers[split.value.0 := split.value.1];
        if |headers| > MaxHeaders {
          return TooManyHeaders;
        }
      }
      outcome := Delivered(Request(verb.text, location.text, headers));
      buffer := [];
    }
  }

  // ---------------------------------------------------------------- the request line

  /** The callback fires only when the buffer holds at least two words; verb and location
      are then its first two words. */
  lemma RequestLineWords(buffer: string)
    ensures ParseRequest(buffer) == NotReady <==> |Tokens(buffer)| < 2
    ensures ParseRequest(buffer).Delivered? ==>
      ParseRequest(buffer).request.verb == Tokens(buffer)[0] &&
      ParseRequest(buffer).request.location == Tokens(buffer)[1]
  {
    var verb := ReadWord(Good(buffer));
    ReadWordTokens(buffer);
    if verb.next.Good? {
      ReadWordTokens(verb.next.rest);
    }
  }

  /** A request is delivered with no version, no header and no blank line. */
  lemma DeliveredWithoutBlankLine(verb: string, location: string)
    requires verb != [] && NoSpace(verb)
    requires location != [] && NoSpace(location)
    ensures ParseRequest(verb + " " + location) == Delivered(Request(verb, location, map[]))
  {
    ReadWordOf([], verb, " " + location);
    assert [] + verb + (" " + location) == verb + " " + location;
    ReadWordOf(" ", location, []);
    assert " " + location + [] == " " + location;
  }

  // ---------------------------------------------------------------- formatted requests

  /** Header pairs a client can send: the name holds no ": ", and neither part a '\n'. */
  ghost predicate Sendable(hs: seq<(string, string)>)
  {
    forall i :: 0 <= i < |hs| ==> !Contains(hs[i].0, ": ") && '\n' !in hs[i].0 && '\n' !in hs[i].1
  }

  /** `Name: Value\r`, one per pair: the header lines without their '\n'. */
  function HeaderLines(hs: seq<(string, string)>): (r: seq<string>)
    ensures |r| == |hs|
    ensures forall i :: 0 <= i < |hs| ==> r[i] == hs[i].0 + ": " + hs[i].1 + "\r"
  {
    if hs == [] then [] else [hs[0].0 + ": " + hs[0].1 + "\r"] + HeaderLines(hs[1..])
  }

  /** A browser-style request: request line, header lines and the blank line, all ended by CRLF. */
  function RequestText(verb: string, location: string, version: string, hs: seq<(string, string)>): string
  {
    verb + " " + location + " " + version + "\r\n" + Join(HeaderLines(hs) + ["\r"])
  }

  /** The header map a formatted request should produce: later pairs overwrite earlier
      ones, and every value keeps the '\r' that precedes its line's '\n'. */
  function Received(acc: map<string, string>, hs: seq<(string, string)>): map<string, string>
    decreases |hs|
  {
    if hs == [] then acc else Received(acc[hs[0].0 := hs[0].1 + "\r"], hs[1..])
  }

  lemma {:induction false} SplitHeaderOf(name: string, value: string)
    requires !Contains(name, ": ")
    ensures SplitHeader(name + ": " + value) == Some((name, value))
  {
    var line := name + ": " + value;
    assert MatchAt(line, ": ", |name|) by { assert line[|name|..|name| + 2] == ": "; }
    var d := Find(line, ": ", 0).value;
    if d < |name| {
      assert line[d] == ':' && line[d + 1] == ' ' by { assert line[d..d + 2] == ": "; }
      if d + 1 < |name| {
        assert name[d..d + 2] == line[d..d + 2];
        assert MatchAt(name, ": ", d);
      }
    }
    assert line[..|name|] == name && line[|name| + 2..] == value;
  }

  lemma {:induction false} ReceivedKeys(acc: map<string, string>, hs: seq<(string, string)>)
    ensures acc.Keys <= Received(acc, hs).Keys
    ensures forall k :: k in Received(acc, hs) ==> k in acc || exists i :: 0 <= i < |hs| && hs[i].0 == k
    ensures forall i :: 0 <= i < |hs| ==> hs[i].0 in Received(acc, hs)
    decreases |hs|
  {
    if hs != [] {
      var acc' := acc[hs[0].0 := hs[0].1 + "\r"];
      ReceivedKeys(acc', hs[1..]);
      forall i | 0 <= i < |hs| ensures hs[i].0 in Received(acc, hs) {
        if i > 0 { assert hs[i] == hs[1..][i - 1]; }
      }
      forall k | k in Received(acc, hs) && k !in acc ensures exists i :: 0 <= i < |hs| && hs[i].0 == k {
        if k == hs[0].0 {
          assert hs[0].0 == k;
        } else {
          var i :| 0 <= i < |hs[1..]| && hs[1..][i].0 == k;
          assert hs[i + 1].0 == k;
        }
      }
    }
  }

  lemma {:induction false} SubsetCard(a: set<string>, b: set<string>)
    requires a <= b
    ensures |a| <= |b|
    decreases |a|
  {
    if a != {} {
      var x :| x in a;
      SubsetCard(a - {x}, b - {x});
    }
  }

  /** The header loop takes every formatted line in turn, whatever follows them, unless the
      map overflows first. */
  lemma {:induction false} CollectHeaderLines(hs: seq<(string, string)>, tail: seq<string>, acc: map<string, string>)
    requires Sendable(hs) && |acc| <= MaxHeaders
    ensures CollectHeaders(HeaderLines(hs) + tail, acc) ==
      if |Received(acc, hs)| > MaxHeaders then Overflow else CollectHeaders(tail, Received(acc, hs))
  {
    var lines := HeaderLines(hs) + tail;
    if hs == [] {
      assert lines == tail;
    } else {
      var name, value := hs[0].0, hs[0].1 + "\r";
      assert lines[0] == name + ": " + value;
      assert lines[1..] == HeaderLines(hs[1..]) + tail;
      SplitHeaderOf(name, value);
      assert lines[0] != "\r" by { assert |lines[0]| >= 3; }
      var acc' := acc[name := value];
      assert Sendable(hs[1..]) by {
        forall i | 0 <= i < |hs[1..]| ensures !Contains(hs[1..][i].0, ": ") && '\n' !in hs[1..][i].0 && '\n' !in hs[1..][i].1 {
          assert hs[1..][i] == hs[i + 1];
        }
      }
      if |acc'| > MaxHeaders {
        ReceivedKeys(acc', hs[1..]);
        SubsetCard(acc'.Keys, Received(acc', hs[1..]).Keys);
      } else {
        CollectHeaderLines(hs[1..], tail, acc');
      }
    }
  }

  lemma CollectFormatted(hs: seq<(string, string)>, acc: map<string, string>)
    requires Sendable(hs) && |acc| <= MaxHeaders
    ensures CollectHeaders(HeaderLines(hs) + ["\r"], acc) ==
      if |Received(acc, hs)| > MaxHeaders then Overflow else Collected(Received(acc, hs))
  {
    CollectHeaderLines(hs, ["\r"], acc);
    assert ["\r"][1..] == [];
  }

  /** Collection ends at the first line that is neither "\r" nor holds ": ": nothing after it
      is read, not even well-formed header lines. */
  lemma CollectStopsAtPlainLine(hs: seq<(string, string)>, line: string, rest: seq<string>)
    requires Sendable(hs)
    requires line != "\r" && !Contains(line, ": ")
    ensures CollectHeaders(HeaderLines(hs) + [line] + rest, map[]) ==
      if |Received(map[], hs)| > MaxHeaders then Overflow else Collected(Received(map[], hs))
  {
    assert HeaderLines(hs) + [line] + rest == HeaderLines(hs) + ([line] + rest);
    CollectHeaderLines(hs, [line] + rest, map[]);
  }

  /** The lone "\r" of a blank line is skipped, not taken as the end of the header block:
      header-shaped lines after it are collected as well. */
  lemma BlankLineSkipped(hs: seq<(string, string)>, more: seq<(string, string)>)
    requires Sendable(hs) && Sendable(more)
    requires |Received(map[], hs)| <= MaxHeaders
    ensures CollectHeaders(HeaderLines(hs) + ["\r"] + HeaderLines(more), map[]) ==
      if |Received(Received(map[], hs), more)| > MaxHeaders then Overflow
      else Collected(Received(Received(map[], hs), more))
  {
    var r := Received(map[], hs);
    var later := HeaderLines(more);
    var tail := ["\r"] + later;
    assert HeaderLines(hs) + ["\r"] + later == HeaderLines(hs) + tail;
    CollectHeaderLines(hs, tail, map[]);
    assert tail[0] == "\r" && tail[1..] == later;
    assert CollectHeaders(tail, r) == CollectHeaders(later, r);
    CollectHeaderLines(more, [], r);
    assert later + [] == later;
  }

  lemma {:induction false} HeaderLinesNoNewline(hs: seq<(string, string)>)
    requires Sendable(hs)
    ensures NoNewline(HeaderLines(hs) + ["\r"])
  {
    var ls := HeaderLines(hs) + ["\r"];
    forall i | 0 <= i < |ls| ensures '\n' !in ls[i] {
      if i < |hs| {
        assert ls[i] == hs[i].0 + ": " + hs[i].1 + "\r";
      }
    }
  }

  /** The three `>>` extractions on a request line of three words. */
  lemma RequestLineOf(verb: string, location: string, version: string, tail: string)
    requires verb != [] && NoSpace(verb)
    requires location != [] && NoSpace(location)
    requires version != [] && NoSpace(version)
    requires tail == [] || IsSpace(tail[0])
    ensures var v := ReadWord(Good(verb + " " + location + " " + version + tail));
      var l := ReadWord(v.next);
      var r := ReadWord(l.next);
      v.text == verb && l.text == location && r.text == version &&
      r.next == if tail == [] then Failed else Good(tail)
  {
    var s := verb + " " + location + " " + version + tail;
    var t2 := " " + version + tail;
    var t1 := " " + location + t2;
    assert s == [] + verb + t1;
    ReadWordOf([], verb, t1);
    var v := ReadWord(Good(s));
    assert v == Extracted(verb, Good(t1));
    assert t1 == " " + location + t2;
    ReadWordOf(" ", location, t2);
    var l := ReadWord(v.next);
    assert l == Extracted(location, Good(t2));
    assert t2 == " " + version + tail;
    ReadWordOf(" ", version, tail);
  }

  /** A request line of three words followed by `tail`: the header loop reads `tail`. */
  lemma ParseAfterRequestLine(verb: string, location: string, version: string, tail: string)
    requires verb != [] && NoSpace(verb)
    requires location != [] && NoSpace(location)
    requires version != [] && NoSpace(version)
    requires tail != [] && IsSpace(tail[0])
    ensures ParseRequest(verb + " " + location + " " + version + tail) ==
      match CollectHeaders(Lines(Good(tail)), map[])
      case Overflow => TooManyHeaders
      case Collected(headers) => Delivered(Request(verb, location, headers))
  {
    RequestLineOf(verb, location, version, tail);
  }

  lemma CollectAfterRequestLine(hs: seq<(string, string)>)
    requires Sendable(hs)
    ensures CollectHeaders(Lines(Good("\r\n" + Join(HeaderLines(hs) + ["\r"]))), map[]) ==
      if |Received(map[], hs)| > MaxHeaders then Overflow else Collected(Received(map[], hs))
  {
    var block := HeaderLines(hs) + ["\r"];
    assert "\r\n" + Join(block) == "\r" + "\n" + Join(block);
    LinesCons("\r", Join(block));
    HeaderLinesNoNewline(hs);
    LinesOfJoin(block);
    var lines := ["\r"] + block;
    assert lines[1..] == block;
    CollectFormatted(hs, map[]);
  }

  /** Reading back a formatted request: its words, and its headers with last-wins values
      ending in '\r' – unless it names more than 1024 distinct headers. */
  lemma ParseFormatted(verb: string, location: string, version: string, hs: seq<(string, string)>)
    requires verb != [] && NoSpace(verb)
    requires location != [] && NoSpace(location)
    requires version != [] && NoSpace(version)
    requires Sendable(hs)
    ensures ParseRequest(RequestText(verb, location, version, hs)) ==
      if |Received(map[], hs)| > MaxHeaders then TooManyHeaders
      else Delivered(Request(verb, location, Received(map[], hs)))
  {
    var tail := "\r\n" + Join(HeaderLines(hs) + ["\r"]);
    assert RequestText(verb, location, version, hs) == verb + " " + location + " " + version + tail;
    ParseAfterRequestLine(verb, location, version, tail);
    CollectAfterRequestLine(hs);
  }

  /** With distinct names every pair lands in the map. */
  lemma {:induction false} ReceivedDistinct(acc: map<string, string>, hs: seq<(string, string)>)
    requires forall i :: 0 <= i < |hs| ==> hs[i].0 !in acc
    requires forall i, j :: 0 <= i < j < |hs| ==> hs[i].0 != hs[j].0
    ensures |Received(acc, hs)| == |acc| + |hs|
    decreases |hs|
  {
    if hs != [] {
      var acc' := acc[hs[0].0 := hs[0].1 + "\r"];
      assert |acc'| == |acc| + 1;
      forall i | 0 <= i < |hs[1..]| ensures hs[1..][i].0 !in acc' {
        assert hs[1..][i] == hs[i + 1];
      }
      ReceivedDistinct(acc', hs[1..]);
    }
  }

  /** 1024 distinct header names are accepted; 1025 raise the error and deliver nothing. */
  lemma HeaderLimit(verb: string, location: string, version: string, hs: seq<(string, string)>)
    requires verb != [] && NoSpace(verb)
    requires location != [] && NoSpace(location)
    requires version != [] && NoSpace(version)
    requires Sendable(hs)
    requires forall i, j :: 0 <= i < j < |hs| ==> hs[i].0 != hs[j].0
    ensures |hs| <= MaxHeaders ==> ParseRequest(RequestText(verb, location, version, hs)).Delivered?
    ensures |hs| <= MaxHeaders ==> |ParseRequest(RequestText(verb, location, version, hs)).request.headers| == |hs|
    ensures |hs| > MaxHeaders ==> ParseRequest(RequestText(verb, location, version, hs)) == TooManyHeaders
  {
    ParseFormatted(verb, location, version, hs);
    ReceivedDistinct(map[], hs);
  }

  /** The header loop never yields more than 1024 names: it stops with the overflow as soon
      as one more would pass the limit. */
  lemma {:induction false} CollectBound(lines: seq<string>, acc: map<string, string>)
    requires |acc| <= MaxHeaders
    ensures CollectHeaders(lines, acc).Collected? ==> |CollectHeaders(lines, acc).headers| <= MaxHeaders
    decreases |lines|
  {
    if lines != [] {
      if lines[0] == "\r" {
        CollectBound(lines[1..], acc);
      } else {
        match SplitHeader(lines[0])
        case None =>
        case Some((name, value)) =>
          var acc' := acc[name := value];
          if |acc'| <= MaxHeaders {
            CollectBound(lines[1..], acc');
          }
      }
    }
  }

  /** Whatever the buffer holds, a delivered request carries at most 1024 headers. */
  lemma DeliveredBound(buffer: string)
    ensures ParseRequest(buffer).Delivered? ==> |ParseRequest(buffer).request.headers| <= MaxHeaders
  {
    var verb := ReadWord(Good(buffer));
    var location := ReadWord(verb.next);
    var version := ReadWord(location.next);
    CollectBound(Lines(version.next), map[]);
  }

  /** A repeated name keeps the value of its last line. */
  lemma {:induction false} ReceivedLastWins(acc: map<string, string>, hs: seq<(string, string)>, i: nat)
    requires i < |hs|
    requires forall j :: i < j < |hs| ==> hs[j].0 != hs[i].0
    ensures hs[i].0 in Received(acc, hs) && Received(acc, hs)[hs[i].0] == hs[i].1 + "\r"
    decreases |hs|
  {
    var acc' := acc[hs[0].0 := hs[0].1 + "\r"];
    if i == 0 {
      ReceivedUntouched(acc', hs[1..], hs[0].0);
    } else {
      forall j | i - 1 < j < |hs[1..]| ensures hs[1..][j].0 != hs[1..][i - 1].0 {
        assert hs[1..][j] == hs[j + 1];
      }
      ReceivedLastWins(acc', hs[1..], i - 1);
    }
  }

  lemma {:induction false} ReceivedUntouched(acc: map<string, string>, hs: seq<(string, string)>, k: string)
    requires k in acc
    requires forall j :: 0 <= j < |hs| ==> hs[j].0 != k
    ensures k in Received(acc, hs) && Received(acc, hs)[k] == acc[k]
    decreases |hs|
  {
    if hs != [] {
      var acc' := acc[hs[0].0 := hs[0].1 + "\r"];
      forall j | 0 <= j < |hs[1..]| ensures hs[1..][j].0 != k {
        assert hs[1..][j] == hs[j + 1];
      }
      ReceivedUntouched(acc', hs[1..], k);
    }
  }

  // ---------------------------------------------------------------- what a delivered request holds

  predicate LineSafe(s: string)
  {
    '\n' !in s
  }

  predicate HeadersLineSafe(m: map<string, string>)
  {
    forall k :: k in m ==> LineSafe(k) && LineSafe(m[k])
  }

  lemma {:induction false} LinesNoNewline(st: Stream)
    ensures NoNewline(Lines(st))
    decreases Size(st)
  {
    if st.Good? && st.rest != [] {
      LinesNoNewline(ReadLine(st).next);
    }
  }

  lemma {:induction false} CollectHeadersLineSafe(lines: seq<string>, acc: map<string, string>)
    requires NoNewline(lines) && HeadersLineSafe(acc)
    ensures CollectHeaders(lines, acc).Collected? ==> HeadersLineSafe(CollectHeaders(lines, acc).headers)
    decreases |lines|
  {
    if lines != [] {
      assert NoNewline(lines[1..]) by {
        forall i | 0 <= i < |lines[1..]| ensures '\n' !in lines[1..][i] { assert lines[1..][i] == lines[i + 1]; }
      }
      if lines[0] != "\r" {
        var split := SplitHeader(lines[0]);
        if split.Some? {
          var name, value := split.value.0, split.value.1;
          assert '\n' !in lines[0];
          assert LineSafe(name) && LineSafe(value) by {
            assert lines[0] == name + ": " + value;
            forall c | c in name ensures c != '\n' { assert c in lines[0]; }
            forall c | c in value ensures c != '\n' { assert c in lines[0]; }
          }
          CollectHeadersLineSafe(lines[1..], acc[name := value]);
        }
      } else {
        CollectHeadersLineSafe(lines[1..], acc);
      }
    }
  }

  /** No field of a delivered request contains a '\n': verb and location are words, and
      header names and values are parts of single lines. */
  lemma DeliveredLineSafe(buffer: string)
    requires ParseRequest(buffer).Delivered?
    ensures var r := ParseRequest(buffer).request;
      LineSafe(r.verb) && LineSafe(r.location) && HeadersLineSafe(r.headers)
  {
    var verb := ReadWord(Good(buffer));
    var location := ReadWord(verb.next);
    var version := ReadWord(location.next);
    assert LineSafe(verb.text) by { assert forall i :: 0 <= i < |verb.text| ==> !IsSpace(verb.text[i]); }
    assert LineSafe(location.text) by { assert forall i :: 0 <= i < |location.text| ==> !IsSpace(location.text[i]); }
    LinesNoNewline(version.next);
    CollectHeadersLineSafe(Lines(version.next), map[]);
  }
}
