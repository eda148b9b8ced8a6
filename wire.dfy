/**
 * gen/restclient: the hand-written runtime the generated client calls. The
 * writers append bytes to an io.Writer; the readers move a cursor over the bytes
 * of a bufio.Reader.
 *
 * A writer is `Writer`, whose every Write either appends all its bytes or, when
 * the writer is failing, appends nothing and reports an error. A reader is
 * `Reader`: the input bytes and a position; reading past the end is io.EOF.
 */
module Wire {
  import opened Wrappers

  newtype byte = x: int | 0 <= x < 256

  newtype int64 = x: int | -0x8000_0000_0000_0000 <= x < 0x8000_0000_0000_0000

  const Quote: byte := 34        // '"'
  const Backslash: byte := 92    // '\\'
  const Space: byte := 32
  const Newline: byte := 10
  const Tab: byte := 9
  const CarriageReturn: byte := 13
  const Minus: byte := 45        // '-'
  const Zero: byte := 48         // '0'
  const OpenSquare: byte := 91   // '['
  const CloseSquare: byte := 93  // ']'
  const OpenCurly: byte := 123   // '{'
  const CloseCurly: byte := 125  // '}'

  const TrueText: seq<byte> := [116, 114, 117, 101]        // "true"
  const FalseText: seq<byte> := [102, 97, 108, 115, 101]   // "false"

  const WriteFailed := "write failed"
  const EOF := "EOF"

  // ---------------------------------------------------------------------------
  // Escaping
  // ---------------------------------------------------------------------------

  /** strings.Replace(s, old, new, -1) for a one-byte `old`. */
  function ReplaceByte(s: seq<byte>, b: byte, with: seq<byte>): seq<byte>
  {
    if s == [] then [] else (if s[0] == b then with else [s[0]]) + ReplaceByte(s[1..], b, with)
  }

  /** The escaping of Write_string: quotes first, then backslashes (including those just added). */
  function Escape(s: seq<byte>): seq<byte>
  {
    ReplaceByte(ReplaceByte(s, Quote, [Backslash, Quote]), Backslash, [Backslash, Backslash])
  }

  /** What Escape makes of one byte. */
  function EscapeByte(c: byte): seq<byte>
  {
    if c == Quote then [Backslash, Backslash, Quote]
    else if c == Backslash then [Backslash, Backslash]
    else [c]
  }

  /** Escaping byte by byte. */
  function EscapeEach(s: seq<byte>): seq<byte>
  {
    if s == [] then [] else EscapeByte(s[0]) + EscapeEach(s[1..])
  }

  function Count(s: seq<byte>, b: byte): nat
  {
    if s == [] then 0 else (if s[0] == b then 1 else 0) + Count(s[1..], b)
  }

  lemma {:induction false} ReplaceByteAppend(a: seq<byte>, c: seq<byte>, b: byte, with: seq<byte>)
    ensures ReplaceByte(a + c, b, with) == ReplaceByte(a, b, with) + ReplaceByte(c, b, with)
  {
    if a != [] {
      assert (a + c)[0] == a[0] && (a + c)[1..] == a[1..] + c;
      ReplaceByteAppend(a[1..], c, b, with);
    } else {
      assert a + c == c;
    }
  }

  /** Each `"` becomes the three bytes `\\"`, each `\` becomes `\\`, and every other byte stays. */
  lemma {:induction false} EscapeIsPerByte(s: seq<byte>)
    ensures Escape(s) == EscapeEach(s)
  {
    if s != [] {
      var c, rest := s[0], s[1..];
      assert s == [c] + rest;
      ReplaceByteAppend([c], rest, Quote, [Backslash, Quote]);
      var q := ReplaceByte([c], Quote, [Backslash, Quote]);
      ReplaceByteAppend(q, ReplaceByte(rest, Quote, [Backslash, Quote]), Backslash, [Backslash, Backslash]);
      assert [c][1..] == [];
      if c == Quote {
        assert q == [Backslash, Quote];
        assert [Backslash, Quote][1..] == [Quote] && [Quote][1..] == [];
        assert ReplaceByte(q, Backslash, [Backslash, Backslash]) == [Backslash, Backslash, Quote];
      } else if c == Backslash {
        assert q == [Backslash];
        assert ReplaceByte(q, Backslash, [Backslash, Backslash]) == [Backslash, Backslash];
      } else {
        assert q == [c];
      }
      EscapeIsPerByte(rest);
    }
  }

  /** The escaped text is two bytes longer per quote and one per backslash. */
  lemma {:induction false} EscapeLength(s: seq<byte>)
    ensures |Escape(s)| == |s| + 2 * Count(s, Quote) + Count(s, Backslash)
  {
    EscapeIsPerByte(s);
    EscapeEachLength(s);
  }

  lemma {:induction false} EscapeEachLength(s: seq<byte>)
    ensures |EscapeEach(s)| == |s| + 2 * Count(s, Quote) + Count(s, Backslash)
  {
    if s != [] {
      EscapeEachLength(s[1..]);
    }
  }

  predicate Plain(s: seq<byte>)
  {
    forall i :: 0 <= i < |s| ==> s[i] != Quote && s[i] != Backslash
  }

  /** Text with no quote and no backslash is left as it is. */
  lemma {:induction false} EscapePlain(s: seq<byte>)
    requires Plain(s)
    ensures Escape(s) == s
  {
    EscapeIsPerByte(s);
    EscapeEachPlain(s);
  }

  lemma {:induction false} EscapeEachPlain(s: seq<byte>)
    requires Plain(s)
    ensures EscapeEach(s) == s
  {
    if s != [] {
      assert Plain(s[1..]) by {
        forall i | 0 <= i < |s[1..]| ensures s[1..][i] != Quote && s[1..][i] != Backslash {
          assert s[1..][i] == s[i + 1];
        }
      }
      EscapeEachPlain(s[1..]);
      assert s == [s[0]] + s[1..];
    }
  }

  /** Write_string's output for `arg`: the escaped text between quotes. */
  function Quoted(arg: seq<byte>): seq<byte>
  {
    [Quote] + Escape(arg) + [Quote]
  }

  // ---------------------------------------------------------------------------
  // Writers
  // ---------------------------------------------------------------------------

  /** An io.Writer that either takes every write whole or fails every write. */
  class Writer {
    var written: seq<byte>
    const failing: bool

    constructor (failing: bool)
      ensures written == [] && this.failing == failing
    {
      written := [];
      this.failing := failing;
    }

    method Write(bs: seq<byte>) returns (err: Option<string>)
      modifies this
      ensures written == old(written) + (if failing then [] else bs)
      ensures err == (if failing then Some(WriteFailed) else None)
    {
      if failing {
        return Some(WriteFailed);
      }
      written := written + bs;
      err := None;
    }
  }

  /**
   * Write_string (the same in core_writers.go and write_common.go): writes the
   * quoted, escaped argument in three writes and always reports success, even
   * when the writes fail.
   */
  method WriteString(w: Writer, arg: seq<byte>) returns (err: Option<string>)
    modifies w
    ensures w.written == old(w.written) + (if w.failing then [] else Quoted(arg))
    ensures err == None
  {
    var escaped := ReplaceByte(arg, Quote, [Backslash, Quote]);
    escaped := ReplaceByte(escaped, Backslash, [Backslash, Backslash]);
    assert escaped == Escape(arg);
    ghost var before := w.written;
    var _ := w.Write([Quote]);
    var _ := w.Write(escaped);
    var _ := w.Write([Quote]);
    if !w.failing {
      assert w.written == before + [Quote] + escaped + [Quote];
      assert [Quote] + escaped + [Quote] == Quoted(arg);
    }
    err := None;
  }

  function BoolText(arg: bool): seq<byte>
  {
    if arg then TrueText else FalseText
  }

  /** Write_bool of core_writers.go: "true" or "false", reporting the write's error. */
  method WriteBool(w: Writer, arg: bool) returns (err: Option<string>)
    modifies w
    ensures w.written == old(w.written) + (if w.failing then [] else BoolText(arg))
    ensures err.Some? <==> w.failing
  {
    if arg {
      err := w.Write(TrueText);
    } else {
      err := w.Write(FalseText);
    }
  }

  /** Write_bool of write_common.go: the same text, but the write's error is dropped. */
  method WriteBoolIgnoringErrors(w: Writer, arg: bool) returns (err: Option<string>)
    modifies w
    ensures w.written == old(w.written) + (if w.failing then [] else BoolText(arg))
    ensures err == None
  {
    if arg {
      var _ := w.Write(TrueText);
    } else {
      var _ := w.Write(FalseText);
    }
    err := None;
  }

  /** The decimal digits of `n`, most significant first. */
  function Digits(n: nat): (ds: seq<byte>)
    ensures |ds| >= 1
    ensures forall i :: 0 <= i < |ds| ==> Zero <= ds[i] <= Zero + 9
  {
    if n < 10 then [Zero + n as byte] else Digits(n / 10) + [Zero + (n % 10) as byte]
  }

  /** fmt.Sprintf("%d", x): a '-' for negatives, then the digits of |x|. */
  function DecimalText(x: int): (s: seq<byte>)
    ensures |s| >= 1 && (s[0] == Minus <==> x < 0)
  {
    if x < 0 then [Minus] + Digits(-x) else Digits(x)
  }

  predicate AllDigits(s: seq<byte>)
  {
    forall i :: 0 <= i < |s| ==> Zero <= s[i] <= Zero + 9
  }

  function ParseDigits(s: seq<byte>): nat
    requires AllDigits(s)
  {
    if s == [] then 0 else ParseDigits(s[..|s| - 1]) * 10 + (s[|s| - 1] - Zero) as nat
  }

  /** The reading of a decimal text: an optional '-' and at least one digit. */
  function ParseDecimal(s: seq<byte>): Option<int>
  {
    if |s| > 0 && s[0] == Minus then
      (if |s| > 1 && AllDigits(s[1..]) then Some(-(ParseDigits(s[1..]) as int)) else None)
    else if |s| > 0 && AllDigits(s) then Some(ParseDigits(s) as int)
    else None
  }

  lemma {:induction false} DigitsRoundTrip(n: nat)
    ensures ParseDigits(Digits(n)) == n
  {
    if n >= 10 {
      DigitsRoundTrip(n / 10);
      var ds := Digits(n);
      assert ds[..|ds| - 1] == Digits(n / 10);
    }
  }

  lemma DigitsAllDigits(n: nat)
    ensures AllDigits(Digits(n)) && Digits(n)[0] != Minus
  {
  }

  /** The decimal text reads back as the number written. */
  lemma DecimalRoundTrip(x: int)
    ensures ParseDecimal(DecimalText(x)) == Some(x)
  {
    DigitsAllDigits(if x < 0 then -x else x);
    if x < 0 {
      DigitsRoundTrip(-x);
      var s := DecimalText(x);
      assert s[1..] == Digits(-x);
    } else {
      DigitsRoundTrip(x);
    }
  }

  /** Write_int and Write_int64: the decimal text, reporting the write's error. */
  method WriteInt(w: Writer, arg: int64) returns (err: Option<string>)
    modifies w
    ensures w.written == old(w.written) + (if w.failing then [] else DecimalText(arg as int))
    ensures err.Some? <==> w.failing
  {
    err := w.Write(DecimalText(arg as int));
  }

  // ---------------------------------------------------------------------------
  // Readers
  // ---------------------------------------------------------------------------

  /** Where SkipWhile stops: the first byte from `p` on that fails `filter`, or the end. */
  function SkipEnd(data: seq<byte>, p: nat, filter: byte -> bool): (q: nat)
    requires p <= |data|
    ensures p <= q <= |data|
    ensures forall i :: p <= i < q ==> filter(data[i])
    ensures q < |data| ==> !filter(data[q])
    decreases |data| - p
  {
    if p == |data| || !filter(data[p]) then p else SkipEnd(data, p + 1, filter)
  }

  function NotByte(v: byte): byte -> bool
  {
    b => b != v
  }

  /** SkipSpaces's filter as written: true for every byte except space, newline, tab and CR. */
  function NotWhitespace(): byte -> bool
  {
    b => b != Space && b != Newline && b != Tab && b != CarriageReturn
  }

  /** The result of two skips in a row where an error stops the sequence. */
  datatype Skipped = Skipped(pos: nat, err: Option<string>)

  function SkipResult(data: seq<byte>, p: nat, filter: byte -> bool): (r: Skipped)
    requires p <= |data|
    ensures r.pos <= |data|
  {
    var q := SkipEnd(data, p, filter);
    Skipped(q, if q == |data| then Some(EOF) else None)
  }

  /** Two skips: the second runs only when the first succeeds; the first error is the result. */
  function TwoSkips(data: seq<byte>, p: nat, first: byte -> bool, second: byte -> bool): (r: Skipped)
    requires p <= |data|
    ensures r.pos <= |data|
  {
    var r1 := SkipResult(data, p, first);
    if r1.err.Some? then r1 else SkipResult(data, r1.pos, second)
  }

  /** The value, cursor and error Read_string leaves. */
  datatype ReadResult = ReadResult(value: seq<byte>, pos: nat, err: Option<string>)

  function ReadStringResult(data: seq<byte>, p: nat, arg: seq<byte>): (r: ReadResult)
    requires p <= |data|
    ensures p <= r.pos <= |data|
    ensures r.err.None? ==>
      && p + 2 <= r.pos && data[p] == Quote && data[r.pos - 1] == Quote
      && r.value == data[p + 1..r.pos - 1] && Quote !in r.value
    ensures r.err == Some(EOF) ==>
      p < |data| && data[p] == Quote && r.pos == |data| && r.value == data[p + 1..] && Quote !in r.value
    ensures r.err == Some("Expected \"") <==> p == |data| || data[p] != Quote
    ensures p < |data| && data[p] == Quote ==>
      && (r.err.None? <==> Quote in data[p + 1..])
      && (r.err.None? || r.err == Some(EOF))
  {
    if p == |data| || data[p] != Quote then ReadResult(arg, p, Some("Expected \""))
    else
      var q := SkipEnd(data, p + 1, NotByte(Quote));
      if q == |data| then ReadResult(data[p + 1..], q, Some(EOF))
      else ReadResult(data[p + 1..q], q + 1, None)
  }

  /** A bufio.Reader over `data`, at `pos`. */
  class Reader {
    const data: seq<byte>
    var pos: nat

    ghost predicate Valid()
      reads this
    {
      pos <= |data|
    }

    constructor (data: seq<byte>)
      ensures Valid() && this.data == data && pos == 0
    {
      this.data := data;
      pos := 0;
    }

    /** NextIf: consumes the next byte exactly when there is one and it is `value`. */
    method NextIf(value: byte) returns (ok: bool)
      requires Valid()
      modifies this
      ensures Valid()
      ensures ok <==> old(pos) < |data| && data[old(pos)] == value
      ensures pos == old(pos) + (if ok then 1 else 0)
    {
      if pos == |data| {
        return false;
      }
      if data[pos] != value {
        return false;
      }
      pos := pos + 1;
      ok := true;
    }

    /** SkipWhile: consumes bytes while `filter` holds; running out of input is io.EOF. */
    method SkipWhile(filter: byte -> bool) returns (err: Option<string>)
      requires Valid()
      modifies this
      ensures Valid()
      ensures Skipped(pos, err) == SkipResult(data, old(pos), filter)
    {
      while true
        invariant old(pos) <= pos <= |data|
        invariant SkipEnd(data, old(pos), filter) == SkipEnd(data, pos, filter)
        decreases |data| - pos
      {
        if pos == |data| {
          return Some(EOF);
        }
        if filter(data[pos]) {
          pos := pos + 1;
        } else {
          break;
        }
      }
      err := None;
    }

    /** SkipTill: stops on the first `val`, leaving it unread. */
    method SkipTill(val: byte) returns (err: Option<string>)
      requires Valid()
      modifies this
      ensures Valid()
      ensures Skipped(pos, err) == SkipResult(data, old(pos), NotByte(val))
    {
      err := SkipWhile(NotByte(val));
    }

    /** SkipSpaces as written: skips the bytes that are not whitespace. */
    method SkipSpaces() returns (err: Option<string>)
      requires Valid()
      modifies this
      ensures Valid()
      ensures Skipped(pos, err) == SkipResult(data, old(pos), NotWhitespace())
    {
      err := SkipWhile(NotWhitespace());
    }

    /** EnsureOSq: SkipTill('[') then SkipSpaces. */
    method EnsureOSq() returns (err: Option<string>)
      requires Valid()
      modifies this
      ensures Valid()
      ensures Skipped(pos, err) == TwoSkips(data, old(pos), NotByte(OpenSquare), NotWhitespace())
    {
      err := SkipTill(OpenSquare);
      if err.Some? {
        return;
      }
      err := SkipSpaces();
    }

    /** EnsureCSq: SkipSpaces then SkipTill(']'). */
    method EnsureCSq() returns (err: Option<string>)
      requires Valid()
      modifies this
      ensures Valid()
      ensures Skipped(pos, err) == TwoSkips(data, old(pos), NotWhitespace(), NotByte(CloseSquare))
    {
      err := SkipSpaces();
      if err.Some? {
        return;
      }
      err := SkipTill(CloseSquare);
    }

    /** EnsureOCurly: SkipTill('{') then SkipSpaces. */
    method EnsureOCurly() returns (err: Option<string>)
      requires Valid()
      modifies this
      ensures Valid()
      ensures Skipped(pos, err) == TwoSkips(data, old(pos), NotByte(OpenCurly), NotWhitespace())
    {
      err := SkipTill(OpenCurly);
      if err.Some? {
        return;
      }
      err := SkipSpaces();
    }

    /** EnsureCCurly: SkipSpaces then SkipTill('}'). */
    method EnsureCCurly() returns (err: Option<string>)
      requires Valid()
      modifies this
      ensures Valid()
      ensures Skipped(pos, err) == TwoSkips(data, old(pos), NotWhitespace(), NotByte(CloseCurly))
    {
      err := SkipSpaces();
      if err.Some? {
        return;
      }
      err := SkipTill(CloseCurly);
    }

    /**
     * Read_string: `arg` is the caller's variable, left as it is when no quote
     * opens; otherwise it receives the bytes up to the next quote, both quotes
     * consumed (or, with no closing quote, everything left, and io.EOF).
     */
    method ReadString(arg: seq<byte>) returns (value: seq<byte>, err: Option<string>)
      requires Valid()
      modifies this
      ensures Valid()
      ensures ReadResult(value, pos, err) == ReadStringResult(data, old(pos), arg)
    {
      var ok := NextIf(Quote);
      if !ok {
        return arg, Some("Expected \"");
      }
      var start := pos;
      value := [];
      while pos < |data| && data[pos] != Quote
        invariant start <= pos <= |data|
        invariant value == data[start..pos]
        invariant SkipEnd(data, start, NotByte(Quote)) == SkipEnd(data, pos, NotByte(Quote))
        decreases |data| - pos
      {
        assert NotByte(Quote)(data[pos]);
        assert data[start..pos + 1] == data[start..pos] + [data[pos]];
        value := value + [data[pos]];
        pos := pos + 1;
      }
      if pos == |data| {
        return value, Some(EOF);
      }
      pos := pos + 1;
      err := None;
    }
  }

  // ---------------------------------------------------------------------------
  // Properties of the readers
  // ---------------------------------------------------------------------------

  /** SkipTill: on success the cursor is on the first `val` from the start; otherwise there is none. */
  lemma SkipTillFindsFirst(data: seq<byte>, p: nat, val: byte)
    requires p <= |data|
    ensures var r := SkipResult(data, p, NotByte(val));
            && (forall i :: p <= i < r.pos ==> data[i] != val)
            && (r.err.None? <==> r.pos < |data|)
            && (r.err.None? ==> data[r.pos] == val)
            && (r.err.Some? ==> r.err == Some(EOF) && forall i :: p <= i < |data| ==> data[i] != val)
  {
    var q := SkipEnd(data, p, NotByte(val));
    assert forall i :: p <= i < q ==> NotByte(val)(data[i]);
  }

  /** SkipSpaces as written: it stops on the first whitespace byte, and skips only non-whitespace. */
  lemma SkipSpacesStopsAtWhitespace(data: seq<byte>, p: nat)
    requires p <= |data|
    ensures var r := SkipResult(data, p, NotWhitespace());
            && (forall i :: p <= i < r.pos ==> data[i] !in {Space, Newline, Tab, CarriageReturn})
            && (r.err.None? ==> data[r.pos] in {Space, Newline, Tab, CarriageReturn})
  {
    var q := SkipEnd(data, p, NotWhitespace());
    assert forall i :: p <= i < q ==> NotWhitespace()(data[i]);
  }

  /**
   * EnsureOSq as written: on "[1, 2]" it consumes "[1," — the bracket is found,
   * and SkipSpaces then runs over the following non-space bytes.
   */
  lemma EnsureOSqConsumesThroughFirstSpace()
    ensures var data: seq<byte> := [OpenSquare, Zero + 1, 44, Space, Zero + 2, CloseSquare];
            TwoSkips(data, 0, NotByte(OpenSquare), NotWhitespace()) == Skipped(3, None)
  {
    var data: seq<byte> := [OpenSquare, Zero + 1, 44, Space, Zero + 2, CloseSquare];
    assert SkipEnd(data, 0, NotByte(OpenSquare)) == 0;
    assert SkipEnd(data, 3, NotWhitespace()) == 3;
    assert SkipEnd(data, 2, NotWhitespace()) == 3;
    assert SkipEnd(data, 1, NotWhitespace()) == 3;
    assert SkipEnd(data, 0, NotWhitespace()) == 3;
  }

  /** Read_string: without an opening quote nothing is consumed and the variable keeps its value. */
  lemma ReadStringNeedsQuote(data: seq<byte>, p: nat, arg: seq<byte>)
    requires p <= |data|
    requires p == |data| || data[p] != Quote
    ensures ReadStringResult(data, p, arg) == ReadResult(arg, p, Some("Expected \""))
  {
  }

  /** Read_string on success: the bytes strictly between the opening quote and the next one, both consumed. */
  lemma ReadStringBetweenQuotes(data: seq<byte>, p: nat, arg: seq<byte>)
    requires p <= |data|
    ensures var r := ReadStringResult(data, p, arg);
            r.err.None? ==>
              && p + 2 <= r.pos <= |data|
              && data[p] == Quote && data[r.pos - 1] == Quote
              && r.value == data[p + 1..r.pos - 1]
              && Quote !in r.value
  {
    if p < |data| && data[p] == Quote {
      var q := SkipEnd(data, p + 1, NotByte(Quote));
      assert forall i :: p + 1 <= i < q ==> NotByte(Quote)(data[i]);
    }
  }

  /** Write_string then Read_string: plain text (no quote, no backslash) comes back, and the cursor passes both quotes. */
  lemma WriteThenRead(pre: seq<byte>, arg: seq<byte>, rest: seq<byte>, prior: seq<byte>)
    requires Plain(arg)
    ensures var data := pre + Quoted(arg) + rest;
            ReadStringResult(data, |pre|, prior) == ReadResult(arg, |pre| + |arg| + 2, None)
  {
    EscapePlain(arg);
    var data := pre + Quoted(arg) + rest;
    var p := |pre|;
    assert data[p] == Quote;
    assert forall i :: 0 <= i < |arg| ==> data[p + 1 + i] == arg[i];
    assert data[p + 1 + |arg|] == Quote;
    var q := SkipEnd(data, p + 1, NotByte(Quote));
    assert forall i :: p + 1 <= i < q ==> NotByte(Quote)(data[i]);
    assert q == p + 1 + |arg|;
    assert data[p + 1..q] == arg;
  }

  // ---------------------------------------------------------------------------
  // Findings: the escaping order and SkipSpaces's filter
  // ---------------------------------------------------------------------------

  /** Reads back escaped text: `\x` is x. */
  function Unescape(s: seq<byte>): seq<byte>
  {
    if s == [] then []
    else if s[0] == Backslash && |s| >= 2 then [s[1]] + Unescape(s[2..])
    else [s[0]] + Unescape(s[1..])
  }

  /** As written, a lone quote is escaped to three bytes that read back as a backslash and a quote. */
  lemma EscapeQuoteDoubled()
    ensures Escape([Quote]) == [Backslash, Backslash, Quote]
    ensures Unescape(Escape([Quote])) == [Backslash, Quote]
  {
    EscapeIsPerByte([Quote]);
    assert EscapeEach([Quote]) == EscapeByte(Quote) + EscapeEach([]);
    var e: seq<byte> := [Backslash, Backslash, Quote];
    assert e[2..] == [Quote];
    assert Unescape([Quote]) == [Quote] + Unescape([]);
  }

  /** The intended escaping: backslashes first, then quotes. */
  function EscapeIntended(s: seq<byte>): seq<byte>
  {
    ReplaceByte(ReplaceByte(s, Backslash, [Backslash, Backslash]), Quote, [Backslash, Quote])
  }

  function EscapeByteIntended(c: byte): seq<byte>
  {
    if c == Quote || c == Backslash then [Backslash, c] else [c]
  }

  function EscapeEachIntended(s: seq<byte>): seq<byte>
  {
    if s == [] then [] else EscapeByteIntended(s[0]) + EscapeEachIntended(s[1..])
  }

  lemma {:induction false} EscapeIntendedIsPerByte(s: seq<byte>)
    ensures EscapeIntended(s) == EscapeEachIntended(s)
  {
    if s != [] {
      var c, rest := s[0], s[1..];
      assert s == [c] + rest;
      ReplaceByteAppend([c], rest, Backslash, [Backslash, Backslash]);
      var b := ReplaceByte([c], Backslash, [Backslash, Backslash]);
      ReplaceByteAppend(b, ReplaceByte(rest, Backslash, [Backslash, Backslash]), Quote, [Backslash, Quote]);
      assert [c][1..] == [];
      if c == Backslash {
        assert b == [Backslash, Backslash];
        assert [Backslash, Backslash][1..] == [Backslash] && [Backslash][1..] == [];
        assert ReplaceByte(b, Quote, [Backslash, Quote]) == [Backslash, Backslash];
      } else if c == Quote {
        assert b == [Quote];
        assert ReplaceByte(b, Quote, [Backslash, Quote]) == [Backslash, Quote];
      } else {
        assert b == [c];
      }
      EscapeIntendedIsPerByte(rest);
    }
  }

  lemma {:induction false} UnescapeEachIntended(s: seq<byte>)
    ensures Unescape(EscapeEachIntended(s)) == s
  {
    if s != [] {
      var e := EscapeEachIntended(s);
      var r := EscapeEachIntended(s[1..]);
      assert e == EscapeByteIntended(s[0]) + r;
      if s[0] == Quote || s[0] == Backslash {
        assert e[0] == Backslash && e[1] == s[0] && e[2..] == r;
      } else {
        assert e[0] == s[0] && e[1..] == r;
        assert s[0] != Backslash;
      }
      UnescapeEachIntended(s[1..]);
      assert s == [s[0]] + s[1..];
    }
  }

  /** With backslashes escaped first, every text reads back as itself. */
  lemma EscapeIntendedRoundTrip(s: seq<byte>)
    ensures Unescape(EscapeIntended(s)) == s
  {
    EscapeIntendedIsPerByte(s);
    UnescapeEachIntended(s);
  }

  /** As written, SkipSpaces before "  x" skips nothing: the cursor stays on the first space. */
  lemma SkipSpacesSkipsNothingBeforeSpaces()
    ensures SkipResult([Space, Space, 120], 0, NotWhitespace()) == Skipped(0, None)
  {
    var data: seq<byte> := [Space, Space, 120];
    assert SkipEnd(data, 0, NotWhitespace()) == 0;
  }

  /** The intended SkipSpaces filter: the whitespace bytes. */
  function Whitespace(): byte -> bool
  {
    b => b == Space || b == Newline || b == Tab || b == CarriageReturn
  }

  /**
   * Skipping whitespace stops on the first non-whitespace byte after only
   * whitespace; before "  x" it lands on the x.
   */
  lemma SkipWhitespaceReachesContent(data: seq<byte>, p: nat)
    requires p <= |data|
    ensures var r := SkipResult(data, p, Whitespace());
            && (forall i :: p <= i < r.pos ==> data[i] in {Space, Newline, Tab, CarriageReturn})
            && (r.err.None? ==> data[r.pos] !in {Space, Newline, Tab, CarriageReturn})
    ensures SkipResult([Space, Space, 120], 0, Whitespace()) == Skipped(2, None)
  {
    var q := SkipEnd(data, p, Whitespace());
    assert forall i :: p <= i < q ==> Whitespace()(data[i]);
    var d: seq<byte> := [Space, Space, 120];
    assert SkipEnd(d, 2, Whitespace()) == 2;
    assert SkipEnd(d, 1, Whitespace()) == 2;
    assert SkipEnd(d, 0, Whitespace()) == 2;
  }
}
