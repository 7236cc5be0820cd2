/** Buffered character output. What has been emitted followed by what the buffer still holds is
    always everything written so far, in order. */
module RawOstream {
  import opened Bits

  // ---- numbers as text ----

  /** Decimal digits, most significant first. */
  function Decimal(n: nat): (s: string)
    ensures s != ""
  {
    if n < 10 then [Digit(n)] else Decimal(n / 10) + [Digit(n % 10)]
  }

  function Digit(d: nat): char
    requires d < 10
  {
    '0' + d as char
  }

  function HexDigit(d: nat): char
    requires d < 16
  {
    "0123456789abcdef"[d]
  }

  /** The low `k` hexadecimal digits of `n`. */
  function Hex(n: nat, k: nat): string {
    if k == 0 then "" else Hex(n / 16, k - 1) + [HexDigit(n % 16)]
  }

  function DigitValue(c: char): int {
    if '0' <= c <= '9' then c as int - '0' as int
    else if 'a' <= c <= 'f' then c as int - 'a' as int + 10
    else -1
  }

  /** Reads digits of the given base. */
  function Parse(s: string, base: nat): int {
    if s == "" then 0 else base * Parse(s[..|s| - 1], base) + DigitValue(s[|s| - 1])
  }

  lemma ParseAppend(s: string, c: char, base: nat)
    ensures Parse(s + [c], base) == base * Parse(s, base) + DigitValue(c)
  {
    assert (s + [c])[..|s|] == s;
  }

  lemma DigitFacts(d: nat)
    requires d < 10
    ensures DigitValue(Digit(d)) == d && '0' <= Digit(d) <= '9' && (Digit(d) == '0' <==> d == 0)
  {
  }

  /** The decimal text of a number reads back as that number. */
  lemma {:induction false} DecimalReadsBack(n: nat)
    ensures Parse(Decimal(n), 10) == n
  {
    DigitFacts(n % 10);
    if n >= 10 {
      DecimalReadsBack(n / 10);
      ParseAppend(Decimal(n / 10), Digit(n % 10), 10);
    } else {
      ParseAppend("", Digit(n), 10);
      assert Decimal(n) == "" + [Digit(n)];
    }
  }

  /** It consists of decimal digits and has no superfluous zero in front. */
  lemma {:induction false} DecimalIsCanonical(n: nat)
    ensures Decimal(n)[0] == '0' <==> n == 0
    ensures forall i :: 0 <= i < |Decimal(n)| ==> '0' <= Decimal(n)[i] <= '9'
  {
    DigitFacts(n % 10);
    if n >= 10 {
      DecimalIsCanonical(n / 10);
    }
  }

  /** The digits are the usual ones, the most significant first. */
  lemma UsualDigits(d: nat)
    requires d < 16
    ensures d < 10 ==> Digit(d) as int == HexDigit(d) as int == 0x30 + d
    ensures d >= 10 ==> HexDigit(d) as int == 0x61 + (d - 10)
    ensures Decimal(120) == "120" && Hex(0x1f, 2) == "1f"
  {
    assert Decimal(12) == "12";
    assert Hex(0x1f, 2) == Hex(1, 1) + "f";
  }

  /** A number of 3k bits has at most k decimal digits. */
  lemma {:induction false} DecimalLength(n: nat, k: nat)
    requires k > 0 && n < Pow2(3 * k)
    ensures |Decimal(n)| <= k
  {
    if n >= 10 {
      var j := 3 * (k - 1);
      assert Pow2(j + 3) == 2 * Pow2(j + 2) == 4 * Pow2(j + 1) == 8 * Pow2(j);
      DecimalLength(n / 10, k - 1);
    }
  }

  lemma HexDigitValue(d: nat)
    requires d < 16
    ensures DigitValue(HexDigit(d)) == d
  {
  }

  lemma {:induction false} HexReadsBack(n: nat, k: nat)
    requires n < Pow2(4 * k)
    ensures |Hex(n, k)| == k && Parse(Hex(n, k), 16) == n
  {
    if k > 0 {
      var j := 4 * (k - 1);
      assert Pow2(j + 4) == 2 * Pow2(j + 3) == 4 * Pow2(j + 2) == 8 * Pow2(j + 1) == 16 * Pow2(j);
      HexReadsBack(n / 16, k - 1);
      ParseAppend(Hex(n / 16, k - 1), HexDigit(n % 16), 16);
      HexDigitValue(n % 16);
    }
  }

  lemma WordLength(n: nat)
    requires n < 0x1_0000_0000_0000_0000
    ensures |Decimal(n)| <= 22
  {
    TwoTo64();
    Pow2Monotone(64, 66);
    DecimalLength(n, 22);
  }

  /** Taking the last digit off the number and putting it in front of the text changes nothing. */
  lemma LastDigit(n: nat, tail: string)
    requires n > 0
    ensures Decimal(n) + tail == (if n / 10 == 0 then "" else Decimal(n / 10)) + ([Digit(n % 10)] + tail)
  {
  }

  /** Writes the digits of `value` into the end of the buffer, last digit first; returns how many. */
  method FormatToBuffer(value: nat, buffer: array<char>) returns (length: nat)
    requires |Decimal(value)| <= buffer.Length
    modifies buffer
    ensures length == |Decimal(value)| && buffer[buffer.Length - length..] == Decimal(value)
  {
    var rest := value;
    var at := buffer.Length - 1;
    buffer[at] := Digit(rest % 10);
    rest := rest / 10;
    ghost var whole := Decimal(value);
    while rest != 0
      invariant 0 <= at < buffer.Length
      invariant |Decimal(rest)| <= |whole|
      invariant rest != 0 ==> |whole| <= buffer.Length && |Decimal(rest)| + (buffer.Length - at) == |whole|
      invariant whole == (if rest == 0 then "" else Decimal(rest)) + buffer[at..]
      decreases rest
    {
      LastDigit(rest, buffer[at..]);
      at := at - 1;
      ghost var tail := buffer[at + 1..];
      buffer[at] := Digit(rest % 10);
      assert buffer[at..] == [Digit(rest % 10)] + tail;
      rest := rest / 10;
    }
    length := buffer.Length - at;
  }

  lemma RemainderFits(size: nat, room: nat)
    requires 0 < room < size
    ensures 0 <= size % room < room
  {
  }

  lemma Regroup(a: string, b: string, c: string)
    ensures a + (b + c) == (a + b) + c
  {
  }

  lemma Rejoin(a: string, s: string, k: nat)
    requires k <= |s|
    ensures (a + s[..k]) + s[k..] == a + s
  {
  }

  // ---- the stream ----

  class Stream {
    var buffer: array?<char>  // null when unbuffered
    var cur: nat
    var out: string           // what has gone through `write_impl`

    ghost predicate Valid()
      reads this, buffer
    {
      if buffer == null then cur == 0 else 0 < buffer.Length && cur <= buffer.Length
    }

    /** Everything written so far. */
    ghost function Contents(): string
      reads this, buffer
      requires Valid()
    {
      if buffer == null then out else out + buffer[..cur]
    }

    constructor ()
      ensures Valid() && Contents() == "" && buffer == null
    {
      buffer, cur, out := null, 0, "";
    }

    /** Installs a buffer. Text still in the old one is lost: a caller flushes first. */
    method SetBuffered(b: array<char>)
      requires b.Length > 0
      modifies this
      ensures Valid() && buffer == b && out == old(out) && Contents() == old(out)
    {
      buffer, cur := b, 0;
    }

    method SetUnbuffered()
      modifies this
      ensures Valid() && buffer == null && out == old(out) && Contents() == old(out)
    {
      buffer, cur := null, 0;
    }

    method FlushNonempty()
      requires Valid() && buffer != null
      modifies this`cur, this`out
      ensures Valid() && cur == 0 && out == Contents() == old(Contents())
    {
      var length := cur;
      cur := 0;
      out := out + buffer[..length];
    }

    /** Afterwards nothing is held back. */
    method Flush()
      requires Valid()
      modifies this`cur, this`out
      ensures Valid() && out == Contents() == old(Contents())
    {
      if cur != 0 {
        FlushNonempty();
      }
    }

    /** Appends to the buffer, which has room. */
    method CopyToBuffer(s: string)
      requires Valid() && buffer != null && cur + |s| <= buffer.Length
      modifies this`cur, buffer
      ensures Valid() && Contents() == old(Contents()) + s && out == old(out) && cur == old(cur) + |s|
    {
      ghost var was := buffer[..cur];
      for i := 0 to |s|
        invariant cur == old(cur) && out == old(out)
        invariant buffer[..cur] == was && buffer[cur..cur + i] == s[..i]
      {
        buffer[cur + i] := s[i];
      }
      assert buffer[..cur + |s|] == was + s;
      cur := cur + |s|;
    }

    /** Called when there is no room: unbuffered output, or a flush and a first character. */
    method WriteChar(c: char)
      requires Valid()
      modifies this`cur, this`out, buffer
      ensures Valid() && Contents() == old(Contents()) + [c]
    {
      if buffer == null {
        out := out + [c];
        return;
      }
      FlushNonempty();
      buffer[cur] := c;
      cur := cur + 1;
    }

    /** `operator<<` for a character. */
    method PutChar(c: char)
      requires Valid()
      modifies this`cur, this`out, buffer
      ensures Valid() && Contents() == old(Contents()) + [c]
      ensures buffer != null && old(cur) < buffer.Length ==> out == old(out)
    {
      if buffer == null || cur >= buffer.Length {
        WriteChar(c);
      } else {
        ghost var was := buffer[..cur];
        buffer[cur] := c;
        cur := cur + 1;
        assert buffer[..cur] == was + [c];
      }
    }

    /** With an empty buffer, whole buffer lengths go straight through and the rest is held back. */
    method WriteThrough(s: string, room: nat)
      requires Valid() && buffer != null && cur == 0 && room == buffer.Length < |s|
      modifies this`cur, this`out, buffer
      ensures Valid() && Contents() == old(Contents()) + s
    {
      RemainderFits(|s|, room);
      var remaining := |s| % room;
      var direct := |s| - remaining;
      out := out + s[..direct];
      CopyToBuffer(s[direct..]);
      assert s[..direct] + s[direct..] == s;
    }

    method FillAndFlush(s: string)
      requires Valid() && buffer != null && cur + |s| == buffer.Length
      modifies this`cur, this`out, buffer
      ensures Valid() && cur == 0 && Contents() == old(Contents()) + s
    {
      CopyToBuffer(s);
      FlushNonempty();
    }

    /** Writes a string: into the buffer when it fits; straight through in whole buffer lengths when
        the buffer is empty; otherwise the buffer is filled and flushed first. */
    method Write(s: string)
      requires Valid()
      modifies this`cur, this`out, buffer
      ensures Valid() && Contents() == old(Contents()) + s
      ensures buffer != null && old(cur) + |s| <= buffer.Length ==> out == old(out)
      decreases |s|, cur
    {
      var room := if buffer == null then 0 else buffer.Length - cur;
      if room < |s| {
        if buffer == null {
          out := out + s;
          return;
        }
        if cur == 0 {
          WriteThrough(s, room);
          return;
        }
        Rejoin(Contents(), s, room);
        FillAndFlush(s[..room]);
        Write(s[room..]);
        return;
      }
      if buffer != null {
        CopyToBuffer(s);
      }
    }

    method WriteUnsigned(n: nat)
      requires Valid() && n < 0x1_0000_0000_0000_0000
      modifies this`cur, this`out, buffer
      ensures Valid() && Contents() == old(Contents()) + Decimal(n)
    {
      WordLength(n);
      var digits := new char[24];
      var length := FormatToBuffer(n, digits);
      Write(digits[24 - length..]);
    }

    /** A signed 64-bit number; the smallest one cannot be negated in its own type. */
    method WriteSigned(n: int)
      requires Valid() && -0x8000_0000_0000_0000 < n < 0x8000_0000_0000_0000
      modifies this`cur, this`out, buffer
      ensures Valid() && Contents() == old(Contents()) + (if n < 0 then "-" + Decimal(-n) else Decimal(n))
    {
      if n < 0 {
        PutChar('-');
        WriteUnsigned(-n);
      } else {
        WriteUnsigned(n);
      }
    }

    /** `0x` and sixteen digits. */
    method WriteHex(number: nat)
      requires Valid() && number < 0x1_0000_0000_0000_0000
      modifies this`cur, this`out, buffer
      ensures Valid() && Contents() == old(Contents()) + "0x" + Hex(number, 16)
    {
      var digits := FormatHex(number);
      Write("0x" + digits);
      assert old(Contents()) + ("0x" + digits) == old(Contents()) + "0x" + digits;
    }
  }

  /** One call on a stream. */
  datatype Output = Character(c: char) | Text(s: string) | Unsigned(u: nat) | Signed(i: int) | Hexadecimal(h: nat) | FlushNow

  predicate Representable(o: Output) {
    && (o.Unsigned? ==> o.u < 0x1_0000_0000_0000_0000)
    && (o.Hexadecimal? ==> o.h < 0x1_0000_0000_0000_0000)
    && (o.Signed? ==> -0x8000_0000_0000_0000 < o.i < 0x8000_0000_0000_0000)
  }

  /** What one call is meant to print. */
  function Printed(o: Output): string
    requires Representable(o)
  {
    match o
    case Character(c) => [c]
    case Text(s) => s
    case Unsigned(u) => Decimal(u)
    case Signed(i) => if i < 0 then "-" + Decimal(-i) else Decimal(i)
    case Hexadecimal(h) => "0x" + Hex(h, 16)
    case FlushNow => ""
  }

  function Transcript(os: seq<Output>): string
    requires forall o :: o in os ==> Representable(o)
  {
    if os == [] then "" else Transcript(os[..|os| - 1]) + Printed(os[|os| - 1])
  }

  method PerformOne(stream: Stream, o: Output)
    requires stream.Valid() && Representable(o)
    modifies stream`cur, stream`out, stream.buffer
    ensures stream.Valid() && stream.Contents() == old(stream.Contents()) + Printed(o)
    ensures o.FlushNow? ==> stream.out == stream.Contents()
  {
    match o
    case Character(c) => stream.PutChar(c);
    case Text(s) => stream.Write(s);
    case Unsigned(u) => stream.WriteUnsigned(u);
    case Signed(i) => stream.WriteSigned(i);
    case Hexadecimal(h) =>
      stream.WriteHex(h);
      assert stream.Contents() == old(stream.Contents()) + ("0x" + Hex(h, 16));
    case FlushNow => stream.Flush();
  }

  /** Any sequence of calls, whatever the buffer: output emitted and output held back together are
      the plain concatenation of what was written. */
  method Perform(stream: Stream, os: seq<Output>)
    requires stream.Valid() && forall o :: o in os ==> Representable(o)
    modifies stream`cur, stream`out, stream.buffer
    ensures stream.Valid() && stream.Contents() == old(stream.Contents()) + Transcript(os)
    ensures os != [] && os[|os| - 1].FlushNow? ==> stream.out == old(stream.Contents()) + Transcript(os)
  {
    if os != [] {
      var last := |os| - 1;
      Perform(stream, os[..last]);
      PerformOne(stream, os[last]);
      Regroup(old(stream.Contents()), Transcript(os[..last]), Printed(os[last]));
    }
  }

  /** Sixteen digits, filled from the last to the first. */
  method FormatHex(number: nat) returns (digits: string)
    ensures digits == Hex(number, 16)
  {
    var buffer := new char[16];
    var i, rest := 16, number;
    while i > 0
      invariant 0 <= i <= 16
      invariant Hex(number, 16) == Hex(rest, i) + buffer[i..]
    {
      i := i - 1;
      buffer[i] := HexDigit(rest % 16);
      rest := rest / 16;
    }
    digits := buffer[..];
  }
}
