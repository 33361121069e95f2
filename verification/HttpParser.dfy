/** The resumable HTTP response parser: three states over a receive buffer, re-entered after every read. */
module HttpParser {
  import opened Options
  import opened Decimal
  import opened TextSearch

  // ----- bytes -----

  // A C string ends at its first NUL.
  function CString(s: string): string {
    if s == [] || s[0] == '\0' then "" else [s[0]] + CString(s[1..])
  }

  predicate IsSpace(c: char) { c == ' ' || 9 <= c as int <= 13 }
  predicate IsDigit(c: char) { '0' <= c <= '9' }

  function SkipSpace(s: string): string {
    if s != [] && IsSpace(s[0]) then SkipSpace(s[1..]) else s
  }

  function LeadingDigits(s: string): string {
    if s != [] && IsDigit(s[0]) then [s[0]] + LeadingDigits(s[1..]) else ""
  }

  // atoi: optional white space, optional sign, digits; 0 without digits.
  function Atoi(s: string): int {
    var t := SkipSpace(CString(s));
    if t != [] && t[0] == '-' then -Value(LeadingDigits(t[1..]))
    else if t != [] && t[0] == '+' then Value(LeadingDigits(t[1..]))
    else Value(LeadingDigits(t))
  }

  // ----- the parser, as a function of context and buffer -----

  const CRLF: string := "\r\n"
  const PROTO: string := "HTTP/1.1 "
  const SEPARATOR: string := ": "
  const HDR_BUFFER_SIZE: nat := 256

  datatype State = Initial | Headers | Content
  datatype Context = Context(state: State, contentLength: int, httpCode: int)
  const INITIAL: Context := Context(Initial, -1, 0)

  // Underflow stands for a separator found beyond the end of the header line: the length computed
  // for the value is then negative, and what follows is not modelled.
  datatype Verdict = NeedMore | Success | Error | Underflow

  datatype Outcome = Outcome(verdict: Verdict, ctx: Context, buf: string)

  function ProcessHdr(ctx: Context, key: string, val: string): Context {
    if ToLower(CString(key)) == "content-length" then ctx.(contentLength := Atoi(val)) else ctx
  }

  // The status code, if the buffer starts with a well-formed one.
  function StatusCode(buf: string): Option<int> {
    if OccursAt(buf, PROTO, 0) && |buf| >= 13 && buf[12] == ' ' && 100 <= Atoi(buf[9..12]) < 600
    then Some(Atoi(buf[9..12]))
    else None
  }

  // One status line; buf holds a CRLF. Success here means: go on. After an error neither the
  // context nor the buffer is used again.
  function StatusLine(ctx: Context, buf: string): Outcome { AfterCode(ctx, buf, StatusCode(buf)) }

  // The rest of the status line, once the code is read.
  function AfterCode(ctx: Context, buf: string, code: Option<int>): Outcome
    requires code.Some? ==> |buf| >= 13
  {
    match code
    case None => Outcome(Error, ctx, buf)
    case Some(code) =>
      match Find(buf[13..], CRLF)
      case None => Outcome(Underflow, ctx, buf)
      case Some(idx) => Outcome(Success, ctx.(httpCode := code, state := Headers), buf[13..][idx + 2..])
  }

  // One header line that ends at idxEnd.
  function HeaderLine(ctx: Context, buf: string, idxEnd: nat): Outcome
    requires idxEnd + 2 <= |buf|
  {
    match Find(buf, SEPARATOR)
    case None => Outcome(Error, ctx, buf)
    case Some(idx) =>
      if idx >= HDR_BUFFER_SIZE then Outcome(Error, ctx, buf)
      else if idxEnd < idx + 2 then Outcome(Underflow, ctx, buf)
      else if idxEnd - (idx + 2) >= HDR_BUFFER_SIZE then Outcome(Error, ctx, buf)
      else Outcome(Success, ProcessHdr(ctx, buf[..idx], buf[idx + 2..idxEnd]), buf[idxEnd + 2..])
  }

  // The parser's loop.
  function Parse(ctx: Context, buf: string): Outcome
    decreases |buf|, if ctx.state.Content? then 0 else 1
  {
    if ctx.state.Content? then
      if ctx.contentLength < 0 || |buf| >= ctx.contentLength then Outcome(Success, ctx, buf)
      else Outcome(NeedMore, ctx, buf)
    else
      match Find(buf, CRLF)
      case None => Outcome(NeedMore, ctx, buf)
      case Some(idx) =>
        if ctx.state.Initial? then
          var o := StatusLine(ctx, buf);
          if o.verdict == Success then Parse(o.ctx, o.buf) else o
        else if idx == 0 then
          Parse(ctx.(state := Content), buf[2..])
        else
          var o := HeaderLine(ctx, buf, idx);
          if o.verdict == Success then Parse(o.ctx, o.buf) else o
  }

  // ----- the status line leaves its CRLF in the buffer -----

  // Digits have a value, less than 10 for one digit and less than 100 for two.
  lemma {:induction false} DigitsValue(d: string)
    requires forall c <- d :: IsDigit(c)
    ensures 0 <= Value(d)
    ensures |d| <= 1 ==> Value(d) < 10
    ensures |d| <= 2 ==> Value(d) < 100
  {
    if d == [] {
    } else {
      assert d[|d| - 1] in d;
      DigitsValue(d[..|d| - 1]);
    }
  }

  lemma {:induction false} LeadingAreDigits(s: string)
    ensures var d := LeadingDigits(s); |d| <= |s| && d == s[..|d|] && forall c <- d :: IsDigit(c)
  {
    if s == [] || !IsDigit(s[0]) {
    } else {
      LeadingAreDigits(s[1..]);
      var d := LeadingDigits(s[1..]);
      assert s[..|d| + 1] == [s[0]] + s[1..][..|d|];
    }
  }

  // Three characters that atoi reads as 100 or more are three digits.
  lemma {:induction false} ThreeDigits(s: string)
    requires |s| == 3 && Atoi(s) >= 100
    ensures forall c <- s :: IsDigit(c)
  {
    CStringShorter(s);
    SkipShorter(CString(s));
    var t := SkipSpace(CString(s));
    var u := if t != [] && (t[0] == '-' || t[0] == '+') then t[1..] else t;
    LeadingAreDigits(u);
    DigitsValue(LeadingDigits(u));
    assert |u| == 3;
    assert u == s;
    assert s[..3] == s;
  }

  lemma {:induction false} CStringShorter(s: string)
    ensures |CString(s)| <= |s| && (|CString(s)| == |s| ==> CString(s) == s)
  {
    if s == [] || s[0] == '\0' {
    } else {
      CStringShorter(s[1..]);
    }
  }

  lemma {:induction false} SkipShorter(s: string)
    ensures |SkipSpace(s)| <= |s| && (|SkipSpace(s)| == |s| ==> SkipSpace(s) == s)
  {
    if s == [] || !IsSpace(s[0]) {
    } else {
      SkipShorter(s[1..]);
    }
  }

  lemma NonDigit(t: string, k: nat)
    requires |t| == 3 && k < 3 && !IsDigit(t[k])
    ensures Atoi(t) < 100
  {
    assert t[k] in t;
    if Atoi(t) >= 100 { ThreeDigits(t); }
  }

  lemma CrAt(s: string)
    requires Find(s, CRLF).Some?
    ensures var i := Find(s, CRLF).value; i + 2 <= |s| && s[i] == '\r' && s[i + 1] == '\n'
  {
  }

  // A status line that is accepted has its CRLF behind the status code.
  lemma {:induction false} StatusLineEnds(ctx: Context, buf: string)
    requires Find(buf, CRLF).Some?
    ensures StatusLine(ctx, buf).verdict != Underflow
  {
    var i := Find(buf, CRLF).value;
    CrAt(buf);
    if StatusCode(buf).Some? {
      if i < 12 {
        NonDigit(buf[9..12], i - 9);
      } else {
        assert buf[13..][i - 13..i - 11] == buf[i..i + 2];
        assert OccursAt(buf[13..], CRLF, i - 13);
      }
    }
  }

  // ----- more bytes -----

  // The first separator in the buffer, if any, belongs to the header line that ends at idxEnd, or
  // comes so late that the key counts as too long.
  predicate SeparatorInLine(buf: string, idxEnd: nat) {
    match Find(buf, SEPARATOR)
    case None => true
    case Some(i) => i >= HDR_BUFFER_SIZE || i + 2 <= idxEnd
  }

  // No header line that the parser meets borrows the separator of the bytes behind it.
  predicate Clean(ctx: Context, buf: string)
    decreases |buf|, if ctx.state.Content? then 0 else 1
  {
    ctx.state.Content? ||
    match Find(buf, CRLF)
    case None => true
    case Some(idx) =>
      if ctx.state.Initial? then
        var o := StatusLine(ctx, buf);
        o.verdict == Success ==> Clean(o.ctx, o.buf)
      else
        idx == 0 ||
        (SeparatorInLine(buf, idx) &&
         var o := HeaderLine(ctx, buf, idx);
         o.verdict == Success ==> Clean(o.ctx, o.buf))
  }

  lemma {:induction false} StatusCodeExtends(b: string, x: string)
    requires Find(b, CRLF).Some?
    ensures StatusCode(b + x) == StatusCode(b)
  {
    CrAt(b);
    var i := Find(b, CRLF).value;
    assert (b + x)[i] == b[i];
    if |b| >= 13 {
      assert (b + x)[0..9] == b[0..9] && (b + x)[9..12] == b[9..12];
    } else if StatusCode(b + x).Some? {
      NonDigit((b + x)[9..12], i - 9);
    }
  }

  lemma {:induction false} StatusLineExtends(ctx: Context, b: string, x: string)
    requires Find(b, CRLF).Some?
    ensures var o, p := StatusLine(ctx, b), StatusLine(ctx, b + x);
            && p.verdict == o.verdict
            && (o.verdict == Success ==> p == o.(buf := o.buf + x))
  {
    StatusCodeExtends(b, x);
    StatusLineEnds(ctx, b);
    AfterCodeExtends(ctx, b, x, StatusCode(b));
  }

  lemma AfterCodeExtends(ctx: Context, b: string, x: string, code: Option<int>)
    requires code.Some? ==> |b| >= 13 && Find(b[13..], CRLF).Some?
    ensures var o, p := AfterCode(ctx, b, code), AfterCode(ctx, b + x, code);
            && p.verdict == o.verdict
            && (o.verdict == Success ==> p == o.(buf := o.buf + x))
  {
    if code.Some? {
      var r := b[13..];
      assert (b + x)[13..] == r + x;
      FindExtends(r, CRLF, x);
      var idx := Find(r, CRLF).value;
      assert (r + x)[idx + 2..] == r[idx + 2..] + x;
    }
  }

  lemma {:induction false} HeaderLineExtends(ctx: Context, b: string, x: string, idxEnd: nat)
    requires idxEnd + 2 <= |b| && SeparatorInLine(b + x, idxEnd)
    ensures SeparatorInLine(b, idxEnd)
    ensures var o, p := HeaderLine(ctx, b, idxEnd), HeaderLine(ctx, b + x, idxEnd);
            && o.verdict != Underflow && p.verdict == o.verdict
            && (o.verdict == Success ==> p == o.(buf := o.buf + x))
  {
    SeparatorShrinks(b, x, idxEnd);
    if Find(b, SEPARATOR).Some? {
      FindExtends(b, SEPARATOR, x);
      var idx := Find(b, SEPARATOR).value;
      if idx + 2 <= idxEnd {
        assert (b + x)[..idx] == b[..idx];
        assert (b + x)[idx + 2..idxEnd] == b[idx + 2..idxEnd];
        assert (b + x)[idxEnd + 2..] == b[idxEnd + 2..] + x;
      }
    }
  }

  lemma SeparatorShrinks(b: string, x: string, idxEnd: nat)
    requires idxEnd + 2 <= |b| && SeparatorInLine(b + x, idxEnd)
    ensures Find(b, SEPARATOR) == Find(b + x, SEPARATOR) ||
            (Find(b, SEPARATOR).None? && Find(b + x, SEPARATOR).value >= HDR_BUFFER_SIZE)
  {
    if Find(b + x, SEPARATOR).Some? {
      var i := Find(b + x, SEPARATOR).value;
      if i + 2 <= |b| {
        assert (b + x)[i..i + 2] == b[i..i + 2];
        assert OccursAt(b, SEPARATOR, i);
      }
    }
    if Find(b, SEPARATOR).Some? { FindExtends(b, SEPARATOR, x); }
  }

  lemma DropTwo(b: string, x: string)
    requires 2 <= |b|
    ensures (b + x)[2..] == b[2..] + x
  {
  }

  // How a parse goes on when more bytes arrive: a waiting parser resumes as if it had had all bytes
  // from the start, success stands and leaves the new bytes in the buffer, and an error stands.
  lemma {:induction false} ParseExtends(ctx: Context, b: string, x: string)
    requires Clean(ctx, b + x)
    ensures Clean(ctx, b)
    ensures var o := Parse(ctx, b);
            && o.verdict != Underflow
            && (o.verdict == NeedMore ==> Clean(o.ctx, o.buf + x) && Parse(ctx, b + x) == Parse(o.ctx, o.buf + x))
            && (o.verdict == Success ==> Parse(ctx, b + x) == o.(buf := o.buf + x))
            && (o.verdict == Error ==> Parse(ctx, b + x).verdict == Error)
    decreases |b|, if ctx.state.Content? then 0 else 1
  {
    if ctx.state.Content? || Find(b, CRLF).None? {
    } else {
      FindExtends(b, CRLF, x);
      var idx := Find(b, CRLF).value;
      if ctx.state.Initial? {
        StatusLineExtends(ctx, b, x);
        StatusLineEnds(ctx, b);
        var o := StatusLine(ctx, b);
        if o.verdict == Success { ParseExtends(o.ctx, o.buf, x); }
      } else if idx == 0 {
        DropTwo(b, x);
        ParseExtends(ctx.(state := Content), b[2..], x);
      } else {
        HeaderLineExtends(ctx, b, x, idx);
        var o := HeaderLine(ctx, b, idx);
        if o.verdict == Success { ParseExtends(o.ctx, o.buf, x); }
      }
    }
  }

  // A call without new data after the parser asked for more changes nothing, on any input.
  lemma {:induction false} WaitingStays(ctx: Context, b: string)
    requires Parse(ctx, b).verdict == NeedMore
    ensures Parse(Parse(ctx, b).ctx, Parse(ctx, b).buf) == Parse(ctx, b)
    decreases |b|, if ctx.state.Content? then 0 else 1
  {
    if ctx.state.Content? || Find(b, CRLF).None? {
    } else {
      var idx := Find(b, CRLF).value;
      if ctx.state.Initial? {
        var o := StatusLine(ctx, b);
        WaitingStays(o.ctx, o.buf);
      } else if idx == 0 {
        WaitingStays(ctx.(state := Content), b[2..]);
      } else {
        var o := HeaderLine(ctx, b, idx);
        WaitingStays(o.ctx, o.buf);
      }
    }
  }

  // ----- chunks -----

  function Concat(chunks: seq<string>): string {
    if chunks == [] then "" else chunks[0] + Concat(chunks[1..])
  }

  // Reading stops at the first call that does not ask for more; the rest is left unread.
  function Feed(ctx: Context, buf: string, chunks: seq<string>): (Outcome, seq<string>)
    decreases chunks
  {
    if chunks == [] then (Outcome(NeedMore, ctx, buf), [])
    else
      var o := Parse(ctx, buf + chunks[0]);
      if o.verdict == NeedMore then Feed(o.ctx, o.buf, chunks[1..]) else (o, chunks[1..])
  }

  // Chunk independence. For every clean stream, well-formed or not, and every way to cut it, the
  // verdict is that of one call with all bytes; on success and while waiting the context is the same
  // and the buffer with the unread bytes is the same.
  lemma {:induction false} ChunksDoNotMatter(ctx: Context, buf: string, chunks: seq<string>)
    requires Clean(ctx, buf + Concat(chunks))
    requires Parse(ctx, buf) == Outcome(NeedMore, ctx, buf)
    ensures var whole, (cut, unread) := Parse(ctx, buf + Concat(chunks)), Feed(ctx, buf, chunks);
            && cut.verdict == whole.verdict != Underflow
            && (whole.verdict != Error ==> cut.ctx == whole.ctx && cut.buf + Concat(unread) == whole.buf)
    decreases chunks
  {
    if chunks == [] {
      assert buf + "" == buf;
    } else {
      var b, x := buf + chunks[0], Concat(chunks[1..]);
      assert buf + Concat(chunks) == b + x;
      ParseExtends(ctx, b, x);
      var o := Parse(ctx, b);
      if o.verdict == NeedMore {
        WaitingStays(ctx, b);
        ChunksDoNotMatter(o.ctx, o.buf, chunks[1..]);
      }
    }
  }

  // A stream that is not clean ends in the underflow when it arrives at once, but in an error when
  // it is cut behind the offending header line.
  lemma {:induction false} UncleanDepends(ctx: Context, s: string) returns (k: nat)
    requires !Clean(ctx, s)
    ensures Parse(ctx, s).verdict == Underflow
    ensures k <= |s| && Parse(ctx, s[..k]).verdict == Error
    decreases |s|, if ctx.state.Content? then 0 else 1
  {
    var idx := Find(s, CRLF).value;
    if ctx.state.Initial? {
      var o := StatusLine(ctx, s);
      var j := UncleanDepends(o.ctx, o.buf);
      k := |s| - |o.buf| + j;
      StatusLineCut(ctx, s, j, k);
    } else if !SeparatorInLine(s, idx) {
      k := idx + 2;
      OffendingLine(ctx, s, idx);
    } else {
      var o := HeaderLine(ctx, s, idx);
      var j := UncleanDepends(o.ctx, o.buf);
      k := idx + 2 + j;
      HeaderLineCut(ctx, s, idx, j, k);
    }
  }

  lemma OffendingLine(ctx: Context, s: string, idx: nat)
    requires ctx.state.Headers? && Find(s, CRLF) == Some(idx) && idx > 0 && !SeparatorInLine(s, idx)
    ensures Parse(ctx, s).verdict == Underflow
    ensures Parse(ctx, s[..idx + 2]).verdict == Error
  {
    CutAfter(s, CRLF, idx + 2);
    NoSeparatorBefore(s, idx + 2);
  }

  lemma CutAfter(s: string, needle: string, k: nat)
    requires Find(s, needle).Some? && Find(s, needle).value + |needle| <= k <= |s|
    ensures Find(s[..k], needle) == Find(s, needle)
  {
    var i := Find(s, needle).value;
    assert s[..k][i..i + |needle|] == s[i..i + |needle|];
    forall j: nat | j < i ensures !OccursAt(s[..k], needle, j) {
      assert !OccursAt(s, needle, j);
      assert s[..k][j..j + |needle|] == s[j..j + |needle|];
    }
    FindIs(s[..k], needle, i);
  }

  lemma NoSeparatorBefore(s: string, k: nat)
    requires 2 <= k <= |s| && Find(s, CRLF) == Some(k - 2) && !SeparatorInLine(s, k - 2)
    ensures Find(s[..k], SEPARATOR).None?
  {
    CrAt(s);
    var i := Find(s, SEPARATOR).value;
    assert s[i] == s[i..i + 2][0] && s[i + 1] == s[i..i + 2][1];
    forall j: nat | j + 2 <= k ensures !OccursAt(s[..k], SEPARATOR, j) {
      assert s[..k][j..j + 2] == s[j..j + 2];
      assert j < i ==> !OccursAt(s, SEPARATOR, j);
    }
  }

  lemma StatusLineCut(ctx: Context, s: string, j: nat, k: nat)
    requires Find(s, CRLF).Some? && StatusLine(ctx, s).verdict == Success
    requires j <= |StatusLine(ctx, s).buf| && k == |s| - |StatusLine(ctx, s).buf| + j
    ensures Find(s[..k], CRLF).Some?
    ensures StatusLine(ctx, s[..k]) == StatusLine(ctx, s).(buf := StatusLine(ctx, s).buf[..j])
  {
    StatusCodeCut(s, k);
    AfterCodeCut(ctx, s, StatusCode(s), j, k);
  }

  lemma AfterCodeCut(ctx: Context, s: string, code: Option<int>, j: nat, k: nat)
    requires (code.Some? ==> |s| >= 13) && AfterCode(ctx, s, code).verdict == Success
    requires j <= |AfterCode(ctx, s, code).buf| && k == |s| - |AfterCode(ctx, s, code).buf| + j
    ensures k >= 13 && Find(s[..k], CRLF).Some?
    ensures AfterCode(ctx, s[..k], code) == AfterCode(ctx, s, code).(buf := AfterCode(ctx, s, code).buf[..j])
  {
    var r := s[13..];
    var i := Find(r, CRLF).value;
    var c := s[..k];
    assert c[13..] == r[..k - 13];
    CutAfter(r, CRLF, k - 13);
    RestCut(r, i + 2, j, k - 13);
    FoundIn(c, c[13..], i);
  }

  lemma RestCut(r: string, i: nat, j: nat, k: nat)
    requires i <= |r| && i + j == k <= |r|
    ensures r[..k][i..] == r[i..][..j]
  {
  }

  lemma StatusCodeCut(s: string, k: nat)
    requires 13 <= k <= |s|
    ensures StatusCode(s[..k]) == StatusCode(s)
  {
    assert s[..k][9..12] == s[9..12] && s[..k][0..9] == s[0..9];
  }

  lemma FoundIn(c: string, r: string, i: nat)
    requires 13 <= |c| && r == c[13..] && OccursAt(r, CRLF, i)
    ensures Find(c, CRLF).Some?
  {
    assert c[13 + i..13 + i + 2] == r[i..i + 2];
    assert OccursAt(c, CRLF, 13 + i);
  }

  lemma SliceCut(s: string, a: nat, b: nat, k: nat)
    requires a <= b <= k <= |s|
    ensures s[..k][a..b] == s[a..b]
  {
  }

  lemma HeaderLineCut(ctx: Context, s: string, idx: nat, j: nat, k: nat)
    requires Find(s, CRLF) == Some(idx) && SeparatorInLine(s, idx)
    requires HeaderLine(ctx, s, idx).verdict == Success && k == idx + 2 + j <= |s|
    ensures Find(s[..k], CRLF) == Some(idx)
    ensures HeaderLine(ctx, s[..k], idx) == HeaderLine(ctx, s, idx).(buf := HeaderLine(ctx, s, idx).buf[..j])
  {
    CutAfter(s, CRLF, k);
    CutAfter(s, SEPARATOR, k);
    var i := Find(s, SEPARATOR).value;
    SliceCut(s, 0, i, k);
    if i + 2 <= idx { SliceCut(s, i + 2, idx, k); }
    RestCut(s, idx + 2, j, k);
  }

  lemma TwoChunks(ctx: Context, s: string, k: nat)
    requires k <= |s|
    ensures Concat([s[..k], s[k..]]) == s
    ensures Parse(ctx, s[..k]).verdict == Error ==> Feed(ctx, "", [s[..k], s[k..]]).0.verdict == Error
  {
    var chunks := [s[..k], s[k..]];
    assert chunks[1..] == [s[k..]];
    assert [s[k..]][1..] == [];
    assert Concat([s[k..]]) == s[k..] + "";
    assert s[..k] + s[k..] == s;
    assert "" + s[..k] == s[..k];
  }

  // Exactly when the cuts do not matter: the verdict is the same for every way to cut a stream if
  // and only if the stream is clean.
  lemma {:induction false} IndependentIffClean(s: string)
    ensures Clean(INITIAL, s) <==>
            forall chunks: seq<string> :: Concat(chunks) == s ==> Feed(INITIAL, "", chunks).0.verdict == Parse(INITIAL, s).verdict
  {
    if Clean(INITIAL, s) {
      forall chunks: seq<string> | Concat(chunks) == s
        ensures Feed(INITIAL, "", chunks).0.verdict == Parse(INITIAL, s).verdict
      {
        assert "" + Concat(chunks) == s;
        ChunksDoNotMatter(INITIAL, "", chunks);
      }
    } else {
      var k := UncleanDepends(INITIAL, s);
      TwoChunks(INITIAL, s, k);
    }
  }
}
