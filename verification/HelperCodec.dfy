/** A codec of the frames that loses nothing exists: what is said of every faithful codec is
    said of something. */
module HelperCodec {

  import opened Digests
  import opened HelperFrames
  import opened HelperStream

  /** `n` ones and a two. */
  function Count(n: nat): Bytes
  {
    if n == 0 then [2] else [1] + Count(n - 1)
  }

  function Digits(c: char): Bytes
  {
    var n := c as int;
    [100 + n / 16384, 100 + n / 128 % 128, 100 + n % 128]
  }

  /** Each character after a one, and a two at the end. */
  function Text(s: string): Bytes
  {
    if s == "" then [2] else [1] + Digits(s[0]) + Text(s[1..])
  }

  /** The part of an encoded frame after its tag. */
  function Payload(f: Frame): Bytes
  {
    match f
    case ProgressFrame(id, record) => Count(id) + Text(record)
    case HeartbeatFrame(id, info) => Count(id) + Text(info)
    case ResultFrame(id, result) => Count(id) + Text(result)
    case ErrorFrame(id, message, remediation, kind) => Count(id) + (Text(message) + (Text(remediation) + Text(kind)))
  }

  function Tag(f: Frame): Byte
  {
    match f
    case ProgressFrame(_, _) => 11
    case HeartbeatFrame(_, _) => 12
    case ResultFrame(_, _) => 13
    case ErrorFrame(_, _, _, _) => 14
  }

  function Encoded(f: Frame): Bytes
  {
    [Tag(f)] + Payload(f)
  }

  lemma DigitsDiffer(c: char, d: char)
    requires Digits(c) == Digits(d)
    ensures c == d
  {
    var m, n := c as int, d as int;
    assert Digits(c)[0] == Digits(d)[0] && Digits(c)[1] == Digits(d)[1] && Digits(c)[2] == Digits(d)[2];
    assert m == m / 128 * 128 + m % 128 && m / 128 == m / 128 / 128 * 128 + m / 128 % 128 && m / 128 / 128 == m / 16384;
    assert n == n / 128 * 128 + n % 128 && n / 128 == n / 128 / 128 * 128 + n / 128 % 128 && n / 128 / 128 == n / 16384;
  }

  lemma {:induction false} CountFirst(m: nat, n: nat, x: Bytes, y: Bytes)
    requires Count(m) + x == Count(n) + y
    ensures m == n && x == y
  {
    var a, b := Count(m) + x, Count(n) + y;
    assert a[0] == if m == 0 then 2 else 1;
    assert b[0] == if n == 0 then 2 else 1;
    if m > 0 {
      assert a[1..] == Count(m - 1) + x && b[1..] == Count(n - 1) + y;
      CountFirst(m - 1, n - 1, x, y);
    } else {
      assert a[1..] == x && b[1..] == y;
    }
  }

  lemma {:induction false} TextFirst(s: string, t: string, x: Bytes, y: Bytes)
    requires Text(s) + x == Text(t) + y
    ensures s == t && x == y
    decreases |s|
  {
    var a, b := Text(s) + x, Text(t) + y;
    assert a[0] == if s == "" then 2 else 1;
    assert b[0] == if t == "" then 2 else 1;
    if s != "" {
      assert a[1..4] == Digits(s[0]) && b[1..4] == Digits(t[0]);
      DigitsDiffer(s[0], t[0]);
      assert a[4..] == Text(s[1..]) + x && b[4..] == Text(t[1..]) + y;
      TextFirst(s[1..], t[1..], x, y);
      assert s == [s[0]] + s[1..] && t == [t[0]] + t[1..];
    } else {
      assert a[1..] == x && b[1..] == y;
    }
  }

  lemma OneTextDiffers(m: nat, n: nat, s: string, t: string)
    requires Count(m) + Text(s) == Count(n) + Text(t)
    ensures m == n && s == t
  {
    CountFirst(m, n, Text(s), Text(t));
    assert Text(s) + [] == Text(t) + [];
    TextFirst(s, t, [], []);
  }

  lemma LastTextDiffers(s: string, t: string)
    requires Text(s) == Text(t)
    ensures s == t
  {
    hide Text;
    assert Text(s) + [] == Text(t) + [];
    TextFirst(s, t, [], []);
  }

  lemma TwoTextsDiffer(b: string, c: string, e: string, h: string)
    requires Text(b) + Text(c) == Text(e) + Text(h)
    ensures b == e && c == h
  {
    hide Text;
    TextFirst(b, e, Text(c), Text(h));
    LastTextDiffers(c, h);
  }

  lemma TextsDiffer(m: nat, n: nat, a: string, d: string, x: Bytes, y: Bytes)
    requires Count(m) + (Text(a) + x) == Count(n) + (Text(d) + y)
    ensures m == n && a == d && x == y
  {
    hide Count, Text;
    CountFirst(m, n, Text(a) + x, Text(d) + y);
    TextFirst(a, d, x, y);
  }

  lemma EncodedDiffers(f: Frame, g: Frame)
    requires Encoded(f) == Encoded(g)
    ensures f == g
  {
    hide Count, Text;
    assert Encoded(f)[0] == Tag(f) && Encoded(g)[0] == Tag(g);
    assert Encoded(f)[1..] == Payload(f) && Encoded(g)[1..] == Payload(g);
    if f.ErrorFrame? {
      TextsDiffer(f.id, g.id, f.message, g.message, Text(f.remediation) + Text(f.kind),
                  Text(g.remediation) + Text(g.kind));
      TwoTextsDiffer(f.remediation, f.kind, g.remediation, g.kind);
    } else {
      OneTextDiffers(f.id, g.id, OnlyText(f), OnlyText(g));
    }
  }

  function OnlyText(f: Frame): string
  {
    match f
    case ProgressFrame(_, record) => record
    case HeartbeatFrame(_, info) => info
    case ResultFrame(_, result) => result
    case ErrorFrame(_, _, _, _) => ""
  }

  lemma {:induction false} CountHasNoNewline(n: nat)
    ensures NEWLINE !in Count(n)
  {
    if n > 0 { CountHasNoNewline(n - 1); }
  }

  lemma {:induction false} TextHasNoNewline(s: string)
    ensures NEWLINE !in Text(s)
    decreases |s|
  {
    if s != "" {
      TextHasNoNewline(s[1..]);
      assert forall i :: 0 <= i < 3 ==> Digits(s[0])[i] >= 100;
    }
  }

  lemma EncodedHasNoNewline(f: Frame)
    ensures NEWLINE !in Encoded(f)
  {
    CountHasNoNewline(f.id);
    match f {
      case ProgressFrame(_, s) => TextHasNoNewline(s);
      case HeartbeatFrame(_, s) => TextHasNoNewline(s);
      case ResultFrame(_, s) => TextHasNoNewline(s);
      case ErrorFrame(_, a, b, c) =>
        TextHasNoNewline(a);
        TextHasNoNewline(b);
        TextHasNoNewline(c);
    }
  }

  ghost function Decoded(line: Bytes): Option<Frame>
  {
    if exists f :: Encoded(f) == line then (var f :| Encoded(f) == line; Some(f)) else None
  }

  function CancelLine(id: nat): Bytes
  {
    [5] + Count(id)
  }

  ghost predicate IsCancelLine(line: Bytes)
  {
    exists id :: CancelLine(id) == line
  }

  lemma {:induction false} CountDigits(n: nat)
    ensures forall i :: 0 <= i < |Count(n)| ==> Count(n)[i] == 1 || Count(n)[i] == 2
  {
    if n > 0 { CountDigits(n - 1); }
  }

  lemma CutIsNoCancel(id: nat, a: nat, b: nat)
    requires a <= b <= |CancelLine(id)| && b - a < |CancelLine(id)|
    ensures !IsCancelLine(CancelLine(id)[a..b])
  {
    var line := CancelLine(id);
    CountDigits(id);
    if other :| CancelLine(other) == line[a..b] {
      assert line[a] == CancelLine(other)[0] == 5;
      var cut := line[..b];
      assert cut[1..] == Count(other) && line[1..] == cut[1..] + line[b..];
      assert Count(other) + line[b..] == Count(id) + [];
      CountFirst(other, id, line[b..], []);
    }
  }

  /** Some codec is faithful, and no proper part of its cancel frames is one. */
  lemma FaithfulCodec() returns (c: Codec)
    ensures Faithful(c) && WholeCancels(c) && forall id :: !Blank(c.encodeCancel(id))
  {
    c := Codec(f => Encoded(f), line => Decoded(line), line => IsCancelLine(line), id => CancelLine(id));
    forall f ensures c.decode(c.encode(f)) == Some(f) && NEWLINE !in c.encode(f) {
      EncodedHasNoNewline(f);
      assert c.encode(f) == Encoded(f);
      var d := Decoded(Encoded(f));
      assert d.Some?;
      EncodedDiffers(f, d.value);
    }
    forall id ensures c.isCancel(c.encodeCancel(id)) && NEWLINE !in c.encodeCancel(id) && !Blank(c.encodeCancel(id)) {
      CountHasNoNewline(id);
      assert CancelLine(id)[0] == 5;
    }
    forall id, a, b | 0 <= a <= b <= |c.encodeCancel(id)| && b - a < |c.encodeCancel(id)|
      ensures !c.isCancel(c.encodeCancel(id)[a..b])
    {
      CutIsNoCancel(id, a, b);
    }
  }
}
