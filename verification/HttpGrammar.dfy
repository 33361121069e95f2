/** What the response parser takes and what it rejects, in terms of the characters of the stream. */
module HttpGrammar {
  import opened Options
  import opened Decimal
  import opened TextSearch
  import opened HttpParser
  import opened HttpResponses

  // ----- the status line -----

  // HTTP/1.1, a blank, a three-digit code from 100 to 599, and a blank.
  predicate StartsResponse(s: string) {
    && |s| >= 13 && s[..9] == "HTTP/1.1 "
    && '1' <= s[9] <= '5' && '0' <= s[10] <= '9' && '0' <= s[11] <= '9' && s[12] == ' '
  }

  function CodeAt(s: string): int
    requires |s| >= 12
  {
    100 * (s[9] as int - 48) + 10 * (s[10] as int - 48) + (s[11] as int - 48)
  }

  lemma ValueOfThree(d: string)
    requires |d| == 3
    ensures Value(d) == 100 * DigitValue(d[0]) + 10 * DigitValue(d[1]) + DigitValue(d[2])
  {
    assert d[..2][..1] == d[..1] && d[..1][..0] == "";
    assert Value(d[..1]) == DigitValue(d[0]);
    assert Value(d[..2]) == 10 * Value(d[..1]) + DigitValue(d[1]);
  }

  lemma CodeOf(s: string)
    requires |s| == 3
    ensures 100 <= Atoi(s) < 600 <==> '1' <= s[0] <= '5' && IsDigit(s[1]) && IsDigit(s[2])
    ensures 100 <= Atoi(s) < 600 ==> Atoi(s) == 100 * DigitValue(s[0]) + 10 * DigitValue(s[1]) + DigitValue(s[2])
  {
    ValueOfThree(s);
    if Atoi(s) >= 100 {
      ThreeDigits(s);
      assert s[0] in s && s[1] in s && s[2] in s;
      AtoiOfDigits(s);
    } else if IsDigit(s[0]) && IsDigit(s[1]) && IsDigit(s[2]) {
      AtoiOfDigits(s);
    }
  }

  // A status code is read exactly from such a start, and it is the number that stands there.
  lemma StatusCodeIff(s: string)
    ensures StatusCode(s).Some? <==> StartsResponse(s)
    ensures StartsResponse(s) ==> StatusCode(s) == Some(CodeAt(s))
  {
    if |s| >= 13 {
      CodeOf(s[9..12]);
      assert s[0..9] == s[..9];
    }
  }

  // A stream without a line end is waited for, however it is cut;
  lemma {:induction false} NoLineWaits(s: string, chunks: seq<string>)
    requires Free(s, "\r\n") && Concat(chunks) == s
    ensures Feed(INITIAL, "", chunks).0 == Outcome(NeedMore, INITIAL, s) && Concat(Feed(INITIAL, "", chunks).1) == ""
  {
    assert "" + Concat(chunks) == s;
    ChunksDoNotMatter(INITIAL, "", chunks);
    WaitingReadsAll(INITIAL, "", chunks);
  }

  // A parser that waits has read everything.
  lemma {:induction false} WaitingReadsAll(ctx: Context, buf: string, chunks: seq<string>)
    ensures Feed(ctx, buf, chunks).0.verdict == NeedMore ==> Feed(ctx, buf, chunks).1 == []
    decreases chunks
  {
    if chunks == [] {
    } else {
      var o := Parse(ctx, buf + chunks[0]);
      if o.verdict == NeedMore { WaitingReadsAll(o.ctx, o.buf, chunks[1..]); }
    }
  }

  // and one whose first line does not start a response is an error, however it is cut.
  lemma {:induction false} BadStartFails(s: string, chunks: seq<string>)
    requires !Free(s, "\r\n") && !StartsResponse(s) && Concat(chunks) == s
    ensures Feed(INITIAL, "", chunks).0.verdict == Error
  {
    StatusCodeIff(s);
    assert "" + Concat(chunks) == s;
    ChunksDoNotMatter(INITIAL, "", chunks);
  }

  // ----- headers -----

  // A status line and well-formed headers, followed by any text.
  function Begun(r: Response, tail: string): string {
    ("HTTP/1.1 " + Str(r.code) + " ") + (r.reason + ("\r\n" + HeaderLines(r.headers, tail)))
  }

  function HeaderLines(hs: seq<Header>, tail: string): string {
    if hs == [] then tail else Text(hs[0]) + ("\r\n" + HeaderLines(hs[1..], tail))
  }

  lemma {:induction false} ReadHeaders(ctx: Context, hs: seq<Header>, tail: string)
    requires ctx.state.Headers? && forall h <- hs :: WellFormedHeader(h)
    ensures AfterHeaders(ctx, hs).state.Headers?
    ensures Parse(ctx, HeaderLines(hs, tail)) == Parse(AfterHeaders(ctx, hs), tail)
    ensures Clean(AfterHeaders(ctx, hs), tail) ==> Clean(ctx, HeaderLines(hs, tail))
    decreases hs
  {
    if hs == [] {
    } else {
      ParseHeader(ctx, hs[0], HeaderLines(hs[1..], tail));
      ReadHeaders(ProcessHdr(ctx, hs[0].name, hs[0].value), hs[1..], tail);
    }
  }

  lemma ReadBegun(r: Response, tail: string) returns (ctx: Context)
    requires WellFormed(r)
    ensures ctx.state.Headers?
    ensures Parse(INITIAL, Begun(r, tail)) == Parse(ctx, tail) && (Clean(ctx, tail) ==> Clean(INITIAL, Begun(r, tail)))
  {
    ParseStatus(r, HeaderLines(r.headers, tail));
    ReadHeaders(Context(Headers, -1, r.code), r.headers, tail);
    ctx := AfterHeaders(Context(Headers, -1, r.code), r.headers);
  }

  lemma {:induction false} ErrorOnEveryCut(r: Response, tail: string, ctx: Context, chunks: seq<string>)
    requires Parse(INITIAL, Begun(r, tail)) == Parse(ctx, tail) && (Clean(ctx, tail) ==> Clean(INITIAL, Begun(r, tail)))
    requires Parse(ctx, tail).verdict == Error && Clean(ctx, tail) && Concat(chunks) == Begun(r, tail)
    ensures Feed(INITIAL, "", chunks).0.verdict == Error
  {
    assert "" + Concat(chunks) == Begun(r, tail);
    ChunksDoNotMatter(INITIAL, "", chunks);
  }

  // The line of a header, whatever the sizes of its parts.
  lemma HeaderFound(name: string, value: string, rest: string)
    requires Free(name, "\r\n") && Free(name, ": ") && Free(value, "\r\n")
    ensures var s := (name + ": " + value) + ("\r\n" + rest);
            Find(s, CRLF) == Some(|name| + 2 + |value|) && Find(s, SEPARATOR) == Some(|name|)
  {
    TextIsFree(Header(name, value));
    FirstAt(name + ": " + value, CRLF, rest);
    LineSlices(name, value, rest);
    FirstAt(name, SEPARATOR, value + (CRLF + rest));
  }

  // A name or a value of 256 characters or more is an error, however the stream is cut;
  lemma {:induction false} LongHeaderFails(r: Response, name: string, value: string, rest: string, chunks: seq<string>)
    requires WellFormed(r) && Free(name, "\r\n") && Free(name, ": ") && Free(value, "\r\n")
    requires |name| >= 256 || |value| >= 256
    requires Concat(chunks) == Begun(r, (name + ": " + value) + ("\r\n" + rest))
    ensures Feed(INITIAL, "", chunks).0.verdict == Error
  {
    var tail := (name + ": " + value) + ("\r\n" + rest);
    var ctx := ReadBegun(r, tail);
    HeaderFound(name, value, rest);
    ErrorOnEveryCut(r, tail, ctx, chunks);
  }

  // and so is a line that is not empty when no separator follows.
  lemma {:induction false} MissingSeparatorFails(r: Response, t: string, rest: string, chunks: seq<string>)
    requires WellFormed(r) && t != "" && Free(t, "\r\n") && Free(t + ("\r\n" + rest), ": ")
    requires Concat(chunks) == Begun(r, t + ("\r\n" + rest))
    ensures Feed(INITIAL, "", chunks).0.verdict == Error
  {
    var tail := t + ("\r\n" + rest);
    var ctx := ReadBegun(r, tail);
    FirstAt(t, CRLF, rest);
    ErrorOnEveryCut(r, tail, ctx, chunks);
  }

  // Without the empty line the headers are waited for.
  lemma {:induction false} UnfinishedHeadersWait(r: Response, t: string, chunks: seq<string>)
    requires WellFormed(r) && Free(t, "\r\n") && Concat(chunks) == Begun(r, t)
    ensures Feed(INITIAL, "", chunks).0.verdict == NeedMore
  {
    var ctx := ReadBegun(r, t);
    assert "" + Concat(chunks) == Begun(r, t);
    ChunksDoNotMatter(INITIAL, "", chunks);
  }

  // ----- numbers in header values -----

  lemma {:induction false} SkipsSpace(w: string, t: string)
    requires (forall c <- w :: c == ' ' || '\t' <= c <= '\r') && (t != "" ==> !IsSpace(t[0]))
    ensures SkipSpace(w + t) == t
  {
    if w == "" {
      assert w + t == t;
    } else {
      forall c | c in w[1..] ensures c in w {}
      assert w[0] in w && (w + t)[0] == w[0] && (w + t)[1..] == w[1..] + t;
      SkipsSpace(w[1..], t);
    }
  }

  lemma {:induction false} DigitsFirst(d: string, rest: string)
    requires (forall c <- d :: '0' <= c <= '9') && (rest != "" ==> !('0' <= rest[0] <= '9'))
    ensures LeadingDigits(d + rest) == d
  {
    if d == "" {
      assert d + rest == rest;
    } else {
      forall c | c in d[1..] ensures c in d {}
      assert d[0] in d && (d + rest)[0] == d[0] && (d + rest)[1..] == d[1..] + rest;
      DigitsFirst(d[1..], rest);
    }
  }

  lemma NoNulIn(w: string, sign: string, d: string, rest: string)
    requires forall c <- w :: c == ' ' || '\t' <= c <= '\r'
    requires sign in ["", "-", "+"] && (forall c <- d :: '0' <= c <= '9') && '\0' !in rest
    ensures '\0' !in w + (sign + (d + rest))
  {
    assert '\0' !in w && '\0' !in sign && '\0' !in d;
  }

  lemma AtoiOf(s: string, after: string, t: string)
    requires '\0' !in s && (after != "" ==> after[0] == '\0') && t == SkipSpace(s)
    ensures Atoi(s + after) == if t != "" && t[0] == '-' then -Value(LeadingDigits(t[1..]))
                               else if t != "" && t[0] == '+' then Value(LeadingDigits(t[1..]))
                               else Value(LeadingDigits(t))
  {
    forall i | 0 <= i < |s| ensures (s + after)[i] != '\0' { assert s[i] in s; }
    CStringIs(s + after, |s|);
    assert (s + after)[..|s|] == s;
  }

  lemma FirstOf(sign: string, d: string, rest: string)
    requires sign in ["", "-", "+"] && forall c <- d :: '0' <= c <= '9'
    requires sign == "" && d == "" && rest != "" ==> rest[0] != '-' && rest[0] != '+' && rest[0] != ' ' && !('\t' <= rest[0] <= '\r')
    ensures var t := sign + (d + rest);
            && (sign != "" ==> t != "" && t[0] == sign[0] && t[1..] == d + rest)
            && (sign == "" ==> t == d + rest && (t != "" ==> t[0] != '-' && t[0] != '+'))
            && (t != "" ==> !IsSpace(t[0]))
  {
    if d != "" { assert d[0] in d && (d + rest)[0] == d[0]; } else { assert d + rest == rest; }
    if sign == "" { assert sign + (d + rest) == d + rest; }
  }

  // atoi skips white space, takes one sign, reads the digits and ignores what follows; a value
  // without digits counts as 0, and nothing behind a NUL counts.
  lemma AtoiReads(w: string, sign: string, d: string, rest: string, after: string)
    requires forall c <- w :: c == ' ' || '\t' <= c <= '\r'
    requires sign in ["", "-", "+"] && forall c <- d :: '0' <= c <= '9'
    requires '\0' !in rest && (rest != "" ==> !('0' <= rest[0] <= '9'))
    requires sign == "" && d == "" && rest != "" ==> rest[0] != '-' && rest[0] != '+' && rest[0] != ' ' && !('\t' <= rest[0] <= '\r')
    requires after != "" ==> after[0] == '\0'
    ensures Atoi(w + (sign + (d + rest)) + after) == if sign == "-" then -Value(d) else Value(d)
  {
    NoNulIn(w, sign, d, rest);
    FirstOf(sign, d, rest);
    SkipsSpace(w, sign + (d + rest));
    AtoiOf(w + (sign + (d + rest)), after, sign + (d + rest));
    DigitsFirst(d, rest);
  }
}
