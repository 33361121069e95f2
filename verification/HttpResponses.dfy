/** Well-formed responses, and the parser as it runs on the receive buffer. */
module HttpResponses {
  import opened Options
  import opened Decimal
  import opened HttpParser
  import opened TextSearch

  datatype Header = Header(name: string, value: string)
  datatype Response = Response(code: nat, reason: string, headers: seq<Header>, body: string)

  predicate Free(s: string, needle: string) { Find(s, needle).None? }

  // A header as RFC 7230, section 3.2, writes it, small enough for the parser's two buffers.
  predicate WellFormedHeader(h: Header) {
    && Free(h.name, "\r\n") && Free(h.name, ": ") && |h.name| < 256
    && Free(h.value, "\r\n") && |h.value| < 256
  }

  predicate WellFormed(r: Response) {
    && 100 <= r.code < 600 && Free(r.reason, "\r\n")
    && forall h <- r.headers :: WellFormedHeader(h)
  }

  function Text(h: Header): string { h.name + ": " + h.value }

  function RenderHeaders(hs: seq<Header>, rest: string): string {
    if hs == [] then "\r\n" + rest else Text(hs[0]) + ("\r\n" + RenderHeaders(hs[1..], rest))
  }

  function Render(r: Response): string {
    ("HTTP/1.1 " + Str(r.code) + " ") + (r.reason + ("\r\n" + RenderHeaders(r.headers, r.body)))
  }

  // The context that the headers leave behind.
  function AfterHeaders(ctx: Context, hs: seq<Header>): Context
    decreases hs
  {
    if hs == [] then ctx else AfterHeaders(ProcessHdr(ctx, hs[0].name, hs[0].value), hs[1..])
  }

  lemma FirstAt(t: string, needle: string, rest: string)
    requires Free(t, needle) && |needle| == 2 && needle[0] != needle[1]
    ensures Find(t + (needle + rest), needle) == Some(|t|)
  {
    var s := t + (needle + rest);
    assert s[|t|..|t| + 2] == needle;
    forall j: nat | j < |t| ensures !OccursAt(s, needle, j) {
      assert !OccursAt(t, needle, j);
      if j + 2 <= |t| {
        assert s[j..j + 2] == t[j..j + 2];
      } else {
        assert s[j..j + 2][1] == needle[0];
      }
    }
    FindIs(s, needle, |t|);
  }

  lemma TextIsFree(h: Header)
    requires Free(h.name, CRLF) && Free(h.value, CRLF)
    ensures Free(Text(h), CRLF)
  {
    var t := Text(h);
    var n := |h.name|;
    forall j: nat | j + 2 <= |t| ensures !OccursAt(t, CRLF, j) {
      assert !OccursAt(h.name, CRLF, j);
      assert t[n] == ':' && t[n + 1] == ' ';
      if j + 2 <= n {
        assert t[j..j + 2] == h.name[j..j + 2];
      } else if j < n + 2 {
        assert t[j..j + 2][0] == t[j] && t[j..j + 2][1] == t[j + 1];
      } else {
        assert !OccursAt(h.value, CRLF, j - n - 2);
        assert t[j..j + 2] == h.value[j - n - 2..j - n];
      }
    }
  }

  // One header: the parser takes its line and its effect, and no more.
  lemma LineSlices(name: string, value: string, rest: string)
    ensures var s := (name + SEPARATOR + value) + (CRLF + rest); var n := |name|; var m := n + 2 + |value|;
            && s == name + (SEPARATOR + (value + (CRLF + rest)))
            && s[..n] == name && s[n + 2..m] == value && s[m + 2..] == rest
  {
  }

  lemma {:induction false} HeaderIsTaken(ctx: Context, h: Header, rest: string)
    requires WellFormedHeader(h)
    ensures var s, m := Text(h) + (CRLF + rest), |Text(h)|;
            && Find(s, CRLF) == Some(m) && SeparatorInLine(s, m)
            && HeaderLine(ctx, s, m) == Outcome(Success, ProcessHdr(ctx, h.name, h.value), rest)
  {
    TextIsFree(h);
    FirstAt(Text(h), CRLF, rest);
    LineSlices(h.name, h.value, rest);
    FirstAt(h.name, SEPARATOR, h.value + (CRLF + rest));
  }

  lemma ParseHeader(ctx: Context, h: Header, rest: string)
    requires ctx.state.Headers? && WellFormedHeader(h)
    ensures var s := Text(h) + (CRLF + rest);
            && Parse(ctx, s) == Parse(ProcessHdr(ctx, h.name, h.value), rest)
            && (Clean(ProcessHdr(ctx, h.name, h.value), rest) ==> Clean(ctx, s))
  {
    HeaderIsTaken(ctx, h, rest);
  }

  lemma {:induction false} ParseHeaders(ctx: Context, hs: seq<Header>, rest: string)
    requires ctx.state.Headers? && forall h <- hs :: WellFormedHeader(h)
    ensures Parse(ctx, RenderHeaders(hs, rest)) == Parse(AfterHeaders(ctx, hs).(state := Content), rest)
    ensures Clean(ctx, RenderHeaders(hs, rest))
    decreases hs
  {
    if hs == [] {
      FirstAt("", CRLF, rest);
      assert "" + (CRLF + rest) == CRLF + rest;
      assert (CRLF + rest)[2..] == rest;
    } else {
      ParseHeader(ctx, hs[0], RenderHeaders(hs[1..], rest));
      ParseHeaders(ProcessHdr(ctx, hs[0].name, hs[0].value), hs[1..], rest);
    }
  }

  // ----- numerals -----

  lemma {:induction false} StrDigits(n: nat)
    ensures forall c <- Str(n) :: IsDigit(c)
  {
    if n < 10 {
    } else {
      StrDigits(n / 10);
    }
  }

  lemma {:induction false} DigitsPass(d: string)
    requires forall c <- d :: IsDigit(c)
    ensures CString(d) == d && LeadingDigits(d) == d
  {
    if d == [] {
    } else {
      assert d[0] in d;
      DigitsPass(d[1..]);
      assert d == [d[0]] + d[1..];
    }
  }

  // atoi reads back a printed number, so a content length arrives as the number that was sent.
  lemma AtoiOfDigits(d: string)
    requires d != "" && forall c <- d :: IsDigit(c)
    ensures Atoi(d) == Value(d)
  {
    DigitsPass(d);
    assert d[0] in d;
  }

  lemma {:induction false} AtoiReadsNumerals(n: nat)
    ensures Atoi(Str(n)) == n
  {
    StrDigits(n);
    AtoiOfDigits(Str(n));
    StrRoundTrip(n);
  }

  lemma ThreeDigitCode(n: nat)
    requires 100 <= n < 600
    ensures |Str(n)| == 3
  {
    assert Str(n / 100) == [Digit(n / 100)];
    assert n / 10 / 10 == n / 100;
    assert Str(n / 10) == Str(n / 10 / 10) + [Digit(n / 10 % 10)];
  }

  lemma ReadsCode(s: string, code: nat)
    requires 100 <= code < 600 && |s| >= 13 && s[0..9] == PROTO && s[9..12] == Str(code) && s[12] == ' '
    ensures StatusCode(s) == Some(code)
  {
    AtoiReadsNumerals(code);
  }

  lemma SkipsReason(ctx: Context, s: string, code: int, reason: string, rest: string)
    requires |s| >= 13 && s[13..] == reason + (CRLF + rest) && Free(reason, CRLF)
    ensures Find(s, CRLF).Some?
    ensures AfterCode(ctx, s, Some(code)) == Outcome(Success, ctx.(httpCode := code, state := Headers), rest)
  {
    var t := reason + (CRLF + rest);
    FirstAt(reason, CRLF, rest);
    assert t[|reason| + 2..] == rest;
    FoundIn(s, t, |reason|);
  }

  lemma {:induction false} ParseStatus(r: Response, rest: string)
    requires 100 <= r.code < 600 && Free(r.reason, CRLF)
    ensures var s := (PROTO + Str(r.code) + " ") + (r.reason + (CRLF + rest));
            && Find(s, CRLF).Some?
            && StatusLine(INITIAL, s) == Outcome(Success, Context(Headers, -1, r.code), rest)
  {
    var t := r.reason + (CRLF + rest);
    var s := (PROTO + Str(r.code) + " ") + t;
    ThreeDigitCode(r.code);
    assert s[0..9] == PROTO && s[9..12] == Str(r.code) && s[12] == ' ' && s[13..] == t;
    ReadsCode(s, r.code);
    SkipsReason(INITIAL, s, r.code, r.reason, rest);
  }

  // ----- the whole response -----

  // Where the parser ends on a response: its code, its content length, and the body in the buffer.
  function Parsed(r: Response): Outcome {
    var ctx := AfterHeaders(Context(Headers, -1, r.code), r.headers).(state := Content);
    Outcome(if ctx.contentLength < 0 || |r.body| >= ctx.contentLength then Success else NeedMore, ctx, r.body)
  }

  lemma {:induction false} ParseWellFormed(r: Response)
    requires WellFormed(r)
    ensures Parse(INITIAL, Render(r)) == Parsed(r) && Clean(INITIAL, Render(r))
  {
    ParseStatus(r, RenderHeaders(r.headers, r.body));
    ParseHeaders(Context(Headers, -1, r.code), r.headers, r.body);
  }

  // Every well-formed response, cut in any way: the verdict, the status code, the content length
  // and the bytes from the body on are those of the response.
  lemma {:induction false} AnyCutOfAResponse(r: Response, chunks: seq<string>)
    requires WellFormed(r) && Concat(chunks) == Render(r)
    ensures var (cut, unread) := Feed(INITIAL, "", chunks);
            && cut.verdict == Parsed(r).verdict
            && cut.ctx == Parsed(r).ctx
            && cut.buf + Concat(unread) == r.body
  {
    ParseWellFormed(r);
    assert "" + Concat(chunks) == Render(r);
    ChunksDoNotMatter(INITIAL, "", chunks);
  }

  // After success with a content length, exactly that many bytes of the body are taken from the buffer.
  lemma {:induction false} PayloadIsTheBody(r: Response, chunks: seq<string>)
    requires WellFormed(r) && Concat(chunks) == Render(r) && 0 <= Parsed(r).ctx.contentLength <= |r.body|
    ensures var (cut, unread) := Feed(INITIAL, "", chunks); var n := Parsed(r).ctx.contentLength;
            cut.verdict == Success && n <= |cut.buf| && cut.buf[..n] == r.body[..n]
  {
    AnyCutOfAResponse(r, chunks);
    FeedSuccess(INITIAL, "", chunks);
    var (cut, unread) := Feed(INITIAL, "", chunks);
    var n := Parsed(r).ctx.contentLength;
    assert (cut.buf + Concat(unread))[..n] == cut.buf[..n];
  }

  // ----- framing -----

  // Character i of a name in either case.
  predicate SpellsAt(name: string, i: nat)
    requires i < 14 && i < |name|
  {
    name[i] == "content-length"[i] || name[i] == "CONTENT-LENGTH"[i]
  }

  // The name spells content-length, each letter in either case, up to its end or a NUL.
  predicate NamesLength(h: Header) {
    && |h.name| >= 14 && (|h.name| > 14 ==> h.name[14] == '\0')
    && forall i :: 0 <= i < 14 ==> SpellsAt(h.name, i)
  }

  lemma {:induction false} CStringIs(s: string, n: nat)
    requires n <= |s| && (n < |s| ==> s[n] == '\0') && forall i :: 0 <= i < n ==> s[i] != '\0'
    ensures CString(s) == s[..n]
  {
    if n == 0 {
    } else {
      CStringIs(s[1..], n - 1);
      assert s[..n] == [s[0]] + s[1..][..n - 1];
    }
  }

  lemma {:induction false} CStringEnds(s: string)
    ensures var n := |CString(s)|;
            n <= |s| && CString(s) == s[..n] && (n < |s| ==> s[n] == '\0')
  {
    if s == [] || s[0] == '\0' {
    } else {
      CStringEnds(s[1..]);
      var n := |CString(s[1..])|;
      assert s[..n + 1] == [s[0]] + s[1..][..n];
    }
  }

  lemma FoldsTo(c: char, lower: char, upper: char)
    requires lower == upper == '-' || ('a' <= lower <= 'z' && upper as int == lower as int - 32)
    ensures ToLower([c]) == [lower] <==> c == lower || c == upper
  {
    assert ToLower([c])[0] == if 'A' <= c <= 'Z' then (c as int + 32) as char else c;
  }

  lemma FoldedAt(name: string, s: string, i: nat)
    requires |s| == 14 && s <= name && i < 14
    ensures ToLower(s)[i] == "content-length"[i] <==> SpellsAt(name, i)
  {
    FoldsTo(s[i], "content-length"[i], "CONTENT-LENGTH"[i]);
    assert ToLower(s)[i] == ToLower([s[i]])[0];
  }

  lemma FoldedName(name: string, s: string)
    requires |s| == 14 && s <= name
    ensures ToLower(s) == "content-length" <==> forall i :: 0 <= i < 14 ==> SpellsAt(name, i)
  {
    forall i | 0 <= i < 14 ensures ToLower(s)[i] == "content-length"[i] <==> SpellsAt(name, i) {
      FoldedAt(name, s, i);
    }
  }

  lemma NoNul(name: string)
    requires |name| >= 14 && forall i :: 0 <= i < 14 ==> SpellsAt(name, i)
    ensures forall i :: 0 <= i < 14 ==> name[i] != '\0'
  {
    forall i | 0 <= i < 14 ensures name[i] != '\0' {
      assert SpellsAt(name, i) && "content-length"[i] != '\0' && "CONTENT-LENGTH"[i] != '\0';
    }
  }

  // These names, and no others, fold to content-length.
  lemma NamesLengthIff(h: Header)
    ensures ToLower(CString(h.name)) == "content-length" <==> NamesLength(h)
  {
    var s := CString(h.name);
    CStringEnds(h.name);
    if NamesLength(h) {
      NoNul(h.name);
      CStringIs(h.name, 14);
    }
    if |s| == 14 { FoldedName(h.name, s); }
  }

  // Without a content-length header the context keeps its length;
  lemma {:induction false} NoLength(ctx: Context, hs: seq<Header>)
    requires forall h <- hs :: !NamesLength(h)
    ensures AfterHeaders(ctx, hs) == ctx
    decreases hs
  {
    if hs == [] {
    } else {
      assert hs[0] in hs && forall h <- hs[1..] :: h in hs;
      NamesLengthIff(hs[0]);
      NoLength(ctx, hs[1..]);
    }
  }

  // otherwise the last such header decides it, whatever else the headers say.
  lemma {:induction false} LastLength(ctx: Context, hs: seq<Header>, k: nat)
    requires k < |hs| && NamesLength(hs[k]) && forall j :: k < j < |hs| ==> !NamesLength(hs[j])
    ensures AfterHeaders(ctx, hs) == ctx.(contentLength := Atoi(hs[k].value))
    decreases hs
  {
    NamesLengthIff(hs[0]);
    if k == 0 {
      forall h | h in hs[1..] ensures !NamesLength(h) {
        var j :| 0 <= j < |hs| - 1 && hs[1..][j] == h;
        assert !NamesLength(hs[j + 1]);
      }
      NoLength(ProcessHdr(ctx, hs[0].name, hs[0].value), hs[1..]);
    } else {
      LastLength(ProcessHdr(ctx, hs[0].name, hs[0].value), hs[1..], k - 1);
    }
  }

  // The last content-length header announces the body's length.
  predicate Framed(r: Response, k: nat) {
    && k < |r.headers| && NamesLength(r.headers[k]) && r.headers[k].value == Str(|r.body|)
    && forall j :: k < j < |r.headers| ==> !NamesLength(r.headers[j])
  }

  // Every cut of a well-formed response that announces its length ends in success with its status
  // code and length, its body in the buffer, and nothing unread.
  lemma {:induction false} FramedResponse(r: Response, k: nat, chunks: seq<string>)
    requires WellFormed(r) && Framed(r, k) && Concat(chunks) == Render(r)
    ensures var (cut, unread) := Feed(INITIAL, "", chunks);
            && cut.verdict == Success && cut.ctx == Context(Content, |r.body|, r.code)
            && cut.buf == r.body && Concat(unread) == ""
  {
    LastLength(Context(Headers, -1, r.code), r.headers, k);
    AtoiReadsNumerals(|r.body|);
    AnyCutOfAResponse(r, chunks);
    FeedSuccess(INITIAL, "", chunks);
    var (cut, unread) := Feed(INITIAL, "", chunks);
    assert |cut.buf + Concat(unread)| == |r.body|;
  }

  // A response without a length is read to success at the end of its headers.
  lemma {:induction false} UnframedResponse(r: Response, chunks: seq<string>)
    requires WellFormed(r) && Concat(chunks) == Render(r) && forall h <- r.headers :: !NamesLength(h)
    ensures var (cut, unread) := Feed(INITIAL, "", chunks);
            && cut.verdict == Success && cut.ctx == Context(Content, -1, r.code)
            && cut.buf + Concat(unread) == r.body
  {
    NoLength(Context(Headers, -1, r.code), r.headers);
    AnyCutOfAResponse(r, chunks);
  }

  // Whether the read ends is decided by the announced length alone: the whole response is waited
  // for in vain if and only if its last content-length header announces more than the body.
  lemma {:induction false} WaitsIff(r: Response, k: nat, chunks: seq<string>)
    requires WellFormed(r) && Concat(chunks) == Render(r)
    requires k < |r.headers| && NamesLength(r.headers[k])
    requires forall j :: k < j < |r.headers| ==> !NamesLength(r.headers[j])
    ensures Feed(INITIAL, "", chunks).0.verdict == NeedMore <==> Atoi(r.headers[k].value) > |r.body|
  {
    LastLength(Context(Headers, -1, r.code), r.headers, k);
    AnyCutOfAResponse(r, chunks);
  }

  // ----- a stream whose reading depends on the cut -----

  // A response with a line t that has no separator, followed by a header.
  function Malformed(code: nat, reason: string, t: string, name: string, rest: string): string {
    (PROTO + Str(code) + " ") + (reason + (CRLF + (t + (CRLF + (name + (SEPARATOR + rest))))))
  }

  lemma MalformedLines(t: string, name: string, rest: string)
    requires Free(t, CRLF) && Free(t + CRLF + name, SEPARATOR)
    ensures var lines := t + (CRLF + (name + (SEPARATOR + rest)));
            Find(lines, CRLF) == Some(|t|) && Find(lines, SEPARATOR) == Some(|t| + 2 + |name|)
  {
    FirstAt(t, CRLF, name + (SEPARATOR + rest));
    assert t + (CRLF + (name + (SEPARATOR + rest))) == (t + CRLF + name) + (SEPARATOR + rest);
    FirstAt(t + CRLF + name, SEPARATOR, rest);
  }

  // Every such stream is unclean,
  lemma {:induction false} MalformedIsUnclean(code: nat, reason: string, t: string, name: string, rest: string)
    requires 100 <= code < 600 && Free(reason, CRLF)
    requires t != "" && Free(t, CRLF) && Free(t + CRLF + name, SEPARATOR) && |t| + 2 + |name| < HDR_BUFFER_SIZE
    ensures !Clean(INITIAL, Malformed(code, reason, t, name, rest))
  {
    var lines := t + (CRLF + (name + (SEPARATOR + rest)));
    var ctx := Context(Headers, -1, code);
    MalformedLines(t, name, rest);
    ParseStatus(Response(code, reason, [], ""), lines);
  }

  // so its verdict depends on how it is cut.
  lemma {:induction false} VerdictDepends(s: string)
    requires !Clean(INITIAL, s)
    ensures exists chunks :: Concat(chunks) == s && Feed(INITIAL, "", chunks).0.verdict != Parse(INITIAL, s).verdict
  {
    IndependentIffClean(s);
  }

  // For instance a line X before a header Y.
  lemma AnUncleanStream() returns (chunks: seq<string>)
    ensures var s := Malformed(200, "OK", "X", "Y", "Z");
            Concat(chunks) == s && Feed(INITIAL, "", chunks).0.verdict != Parse(INITIAL, s).verdict
  {
    var s := Malformed(200, "OK", "X", "Y", "Z");
    NoneIn("OK", CRLF);
    NoneIn("X", CRLF);
    NoneIn("X" + CRLF + "Y", SEPARATOR);
    MalformedIsUnclean(200, "OK", "X", "Y", "Z");
    VerdictDepends(s);
    chunks :| Concat(chunks) == s && Feed(INITIAL, "", chunks).0.verdict != Parse(INITIAL, s).verdict;
  }

  // A text without the first character of a needle is free of it.
  lemma NoneIn(s: string, needle: string)
    requires needle != "" && needle[0] !in s
    ensures Free(s, needle)
  {
    forall i: nat ensures !OccursAt(s, needle, i) {
      if i + |needle| <= |s| { assert s[i..i + |needle|][0] == s[i]; }
    }
  }

  lemma {:induction false} ParseSuccess(ctx: Context, buf: string)
    ensures var o := Parse(ctx, buf); o.verdict == Success ==> o.ctx.contentLength <= |o.buf|
    decreases |buf|, if ctx.state.Content? then 0 else 1
  {
    if ctx.state.Content? || Find(buf, CRLF).None? {
    } else {
      var idx := Find(buf, CRLF).value;
      if ctx.state.Initial? {
        var o := StatusLine(ctx, buf);
        if o.verdict == Success { ParseSuccess(o.ctx, o.buf); }
      } else if idx == 0 {
        ParseSuccess(ctx.(state := Content), buf[2..]);
      } else {
        var o := HeaderLine(ctx, buf, idx);
        if o.verdict == Success { ParseSuccess(o.ctx, o.buf); }
      }
    }
  }

  lemma {:induction false} FeedSuccess(ctx: Context, buf: string, chunks: seq<string>)
    ensures var o := Feed(ctx, buf, chunks).0; o.verdict == Success ==> o.ctx.contentLength <= |o.buf|
    decreases chunks
  {
    if chunks == [] {
    } else {
      ParseSuccess(ctx, buf + chunks[0]);
      var o := Parse(ctx, buf + chunks[0]);
      if o.verdict == NeedMore { FeedSuccess(o.ctx, o.buf, chunks[1..]); }
    }
  }

  // ----- the parser on its buffer -----

  class Client {
    var ctx: Context
    var buf: string

    constructor ()
      ensures ctx == INITIAL && buf == ""
    {
      ctx, buf := INITIAL, "";
    }

    // The first state: protocol, status code, and the rest of the line.
    method ParseStatusLine() returns (v: Verdict)
      requires Find(buf, CRLF).Some?
      modifies this
      ensures v == StatusLine(old(ctx), old(buf)).verdict
      ensures v == Success ==> Outcome(v, ctx, buf) == StatusLine(old(ctx), old(buf))
    {
      StatusLineEnds(ctx, buf);
      if !OccursAt(buf, PROTO, 0) {
        return Error;
      }
      buf := buf[|PROTO|..];
      if |buf| < 4 {
        return Error;
      }
      var rc := buf[..4];
      buf := buf[4..];
      if rc[3] != ' ' {
        return Error;
      }
      assert rc[..3] == old(buf)[9..12] && buf == old(buf)[13..];
      ctx := ctx.(httpCode := Atoi(rc[..3]));
      if ctx.httpCode < 100 || ctx.httpCode >= 600 {
        return Error;
      }
      var idx := Find(buf, CRLF).value;
      buf := buf[idx + 2..];
      ctx := ctx.(state := Headers);
      v := Success;
    }

    // parse_http_hdr, for a buffer with a header line that ends at idxEnd; the line's CRLF stays.
    method ParseHdr(ghost idxEnd: nat) returns (v: Verdict)
      requires Find(buf, CRLF) == Some(idxEnd)
      modifies this
      ensures v == HeaderLine(old(ctx), old(buf), idxEnd).verdict
      ensures v == Success ==>
                && ctx == HeaderLine(old(ctx), old(buf), idxEnd).ctx
                && OccursAt(buf, CRLF, 0) && buf[2..] == HeaderLine(old(ctx), old(buf), idxEnd).buf
    {
      var end := Find(buf, CRLF).value;
      var sep := Find(buf, SEPARATOR);
      if sep.None? {
        return Error;
      }
      var idx := sep.value;
      if idx >= HDR_BUFFER_SIZE {
        return Error;
      }
      var key := buf[..idx];
      buf := buf[idx..];
      buf := buf[2..];
      var len := end - (2 + idx);
      if len >= HDR_BUFFER_SIZE {
        return Error;
      }
      if len < 0 {
        return Underflow;
      }
      var val := buf[..len];
      assert val == old(buf)[idx + 2..end];
      buf := buf[len..];
      assert buf == old(buf)[end..];
      assert buf[0..2] == old(buf)[end..end + 2];
      ctx := ProcessHdr(ctx, key, val);
      v := Success;
    }

    // A header line and, once it is read, its CRLF.
    method TakeHeader(ghost idxEnd: nat) returns (v: Verdict)
      requires Find(buf, CRLF) == Some(idxEnd)
      modifies this
      ensures v == HeaderLine(old(ctx), old(buf), idxEnd).verdict
      ensures v == Success ==> Outcome(v, ctx, buf) == HeaderLine(old(ctx), old(buf), idxEnd)
    {
      v := ParseHdr(idxEnd);
      if v != Success {
        return;
      }
      FindIs(buf, CRLF, 0);
      buf := buf[Find(buf, CRLF).value + 2..];
    }

    // parse_http_response: called again after every read.
    method ParseResponse() returns (v: Verdict)
      modifies this
      ensures v == Parse(old(ctx), old(buf)).verdict
      ensures v == NeedMore || v == Success ==> Outcome(v, ctx, buf) == Parse(old(ctx), old(buf))
    {
      while true
        invariant Parse(ctx, buf) == Parse(old(ctx), old(buf))
        decreases |buf|, if ctx.state.Content? then 0 else 1
      {
        var found := Find(buf, CRLF);
        if !ctx.state.Content? && found.None? {
          return NeedMore;
        }
        match ctx.state {
          case Initial =>
            v := ParseStatusLine();
            if v != Success {
              return v;
            }
          case Headers =>
            if found.value == 0 {
              ctx := ctx.(state := Content);
              buf := buf[2..];
            } else {
              v := TakeHeader(found.value);
              if v != Success {
                return v;
              }
            }
          case Content =>
            if ctx.contentLength < 0 || |buf| >= ctx.contentLength {
              return Success;
            }
            return NeedMore;
        }
      }
    }

    // The read loop, with the bytes of each successful read as one chunk.
    method ReadParse(chunks: seq<string>) returns (v: Verdict, ghost unread: seq<string>)
      modifies this
      ensures v == Feed(old(ctx), old(buf), chunks).0.verdict
      ensures v == NeedMore || v == Success ==>
                Outcome(v, ctx, buf) == Feed(old(ctx), old(buf), chunks).0 && unread == Feed(old(ctx), old(buf), chunks).1
    {
      var i := 0;
      while i < |chunks|
        invariant 0 <= i <= |chunks|
        invariant Feed(old(ctx), old(buf), chunks) == Feed(ctx, buf, chunks[i..])
      {
        assert chunks[i..][1..] == chunks[i + 1..];
        buf := buf + chunks[i];
        v := ParseResponse();
        i := i + 1;
        if v != NeedMore {
          unread := chunks[i..];
          return;
        }
      }
      assert chunks[i..] == [];
      v, unread := NeedMore, [];
    }
  }
}
