/** Attributes of the control messages between the tools and the driver: a 16-bit length, a
    16-bit type, the value, padding to four bytes, all little endian. */
module Netlink {
  import opened Errno

  type byte = x: int | 0 <= x < 256

  const HEADER_LEN: nat := 20
  const ATTR_MAX: nat := 71
  const GEN_MSG: nat := 0

  datatype Attr = IntAttr(ty: nat, v: nat) | StrAttr(ty: nat, s: seq<byte>)
  {
    /** Numbers under any type but the general message, text without a NUL under that one. */
    predicate WellTyped()
    {
      match this
      case IntAttr(_, _) => 0 < ty < ATTR_MAX && v < 0x1_0000_0000
      case StrAttr(_, _) => ty == GEN_MSG && 0 !in s
    }

    /** The length with its header before the cut to 16 bits. */
    function Length(): nat
    {
      match this case IntAttr(_, _) => 8 case StrAttr(_, _) => |s| + 5
    }

    predicate Fits()
    {
      Length() < 0x1_0000
    }
  }

  function Align(n: nat): (r: nat)
    ensures n <= r < n + 4 && r % 4 == 0
  {
    (n + 3) / 4 * 4
  }

  function U16(x: nat): (r: seq<byte>)
    ensures |r| == 2
  {
    [x % 256, x / 256 % 256]
  }

  function U32(x: nat): (r: seq<byte>)
    ensures |r| == 4
  {
    U16(x % 0x1_0000) + U16(x / 0x1_0000)
  }

  function FromU16(b: seq<byte>): nat
    requires |b| >= 2
  {
    (b[0] as nat) + 256 * (b[1] as nat)
  }

  function FromU32(b: seq<byte>): nat
    requires |b| >= 4
  {
    FromU16(b) + 0x1_0000 * FromU16(b[2..])
  }

  lemma U16RoundTrip(x: nat)
    requires x < 0x1_0000
    ensures FromU16(U16(x)) == x
  {
  }

  lemma U32RoundTrip(x: nat)
    requires x < 0x1_0000_0000
    ensures FromU32(U32(x)) == x
  {
    U16RoundTrip(x % 0x1_0000);
    U16RoundTrip(x / 0x1_0000);
    assert U32(x)[..2] == U16(x % 0x1_0000) && U32(x)[2..] == U16(x / 0x1_0000);
  }

  function Zeros(n: nat): (r: seq<byte>)
    ensures |r| == n
  {
    seq(n, _ => 0)
  }

  /** Everything the writer stores for an attribute. */
  function Stored(a: Attr): (r: seq<byte>)
    ensures |r| == Align(a.Length())
  {
    U16(a.Length() % 0x1_0000) + U16(a.ty)
    + (match a case IntAttr(_, v) => U32(v) case StrAttr(_, s) => s + Zeros(Align(a.Length()) - 4 - |s|))
  }

  /** The part of it that the message length then covers. */
  function Sent(a: Attr): seq<byte>
  {
    Stored(a)[..Align(a.Length() % 0x1_0000)]
  }

  function SentAll(attrs: seq<Attr>): seq<byte>
  {
    if attrs == [] then [] else Sent(attrs[0]) + SentAll(attrs[1..])
  }

  // ---- the writer ----

  /** A message under construction; `len` is the length field of its header. */
  class Message {
    const buf: array<byte>
    var len: nat

    ghost predicate Valid()
      reads this, buf
    {
      HEADER_LEN <= len <= buf.Length && forall i | len <= i < buf.Length :: buf[i] == 0
    }

    ghost function Body(): seq<byte>
      reads this, buf
      requires HEADER_LEN <= len <= buf.Length
    {
      buf[HEADER_LEN..len]
    }

    /** `xnl_msg_alloc` and `xnl_msg_set_hdr`. */
    constructor (extra: nat)
      ensures Valid() && Body() == [] && buf.Length == HEADER_LEN + extra && fresh(buf)
    {
      buf := new byte[HEADER_LEN + extra](_ => 0);
      len := HEADER_LEN;
    }

    method Put(at: nat, bytes: seq<byte>)
      requires at + |bytes| <= buf.Length
      modifies buf
      ensures buf[..] == old(buf[..at]) + bytes + old(buf[at + |bytes|..])
    {
      var i := 0;
      while i < |bytes|
        invariant i <= |bytes|
        invariant forall k | 0 <= k < buf.Length :: buf[k] == if at <= k < at + i then bytes[k - at] else old(buf[k])
      {
        buf[at + i] := bytes[i];
        i := i + 1;
      }
    }

    /** `xnl_msg_add_int_attr`. */
    method AddInt(ty: nat, v: nat)
      requires Valid() && len + 8 <= buf.Length
      modifies this`len, buf
      ensures Valid() && Body() == old(Body()) + Sent(IntAttr(ty, v))
    {
      Put(len, Stored(IntAttr(ty, v)));
      len := len + Align(8);
    }

    /** `xnl_msg_add_str_attr`: the length it adds is the one cut to 16 bits. */
    method AddStr(ty: nat, s: seq<byte>)
      requires Valid() && len + Align(|s| + 5) <= buf.Length
      modifies this`len, buf
      ensures HEADER_LEN <= len <= buf.Length && Body() == old(Body()) + Sent(StrAttr(ty, s))
      ensures StrAttr(ty, s).Fits() ==> Valid()
    {
      hide Align, Stored, Sent;
      var a := StrAttr(ty, s);
      ghost var was, at := buf[..], len;
      StoreText(ty, s);
      SentLength(a);
      Extended(was, buf[..], at, a);
      len := len + Align((|s| + 1 + 4) % 0x1_0000);
    }

    /** The header with the length cut to 16 bits, then the text with its NUL. */
    method StoreText(ty: nat, s: seq<byte>)
      requires Valid() && len + Align(|s| + 5) <= buf.Length
      modifies buf
      ensures var a, was := StrAttr(ty, s), old(buf[..]);
        |Stored(a)| == Align(|s| + 5) && buf[..] == was[..len] + Stored(a) + was[len + |Stored(a)|..]
    {
      hide Align, U16, Stored, Zeros;
      ghost var was := buf[..];
      Put(len, U16((|s| + 1 + 4) % 0x1_0000) + U16(ty));
      Put(len + 4, s + [0]);
      StringStored(was, buf[..], len, StrAttr(ty, s));
    }
  }

  lemma StringStored(was: seq<byte>, now: seq<byte>, at: nat, a: Attr)
    requires a.StrAttr? && at + |Stored(a)| <= |was| && forall i | at <= i < |was| :: was[i] == 0
    requires var mid := was[..at] + (U16(a.Length() % 0x1_0000) + U16(a.ty)) + was[at + 4..];
      now == mid[..at + 4] + (a.s + [0]) + mid[at + 4 + |a.s| + 1..]
    ensures now == was[..at] + Stored(a) + was[at + |Stored(a)|..]
  {
    hide Align, U16;
    var pad := |Stored(a)| - 5 - |a.s|;
    var head := U16(a.Length() % 0x1_0000) + U16(a.ty);
    var mid := was[..at] + head + was[at + 4..];
    assert mid[..at + 4] == was[..at] + head;
    assert mid[at + 5 + |a.s|..] == was[at + 5 + |a.s|..];
    assert was[at + 5 + |a.s|..] == Zeros(pad) + was[at + |Stored(a)|..];
    assert [0] + Zeros(pad) == Zeros(pad + 1);
  }

  /** The message grows by what is sent; when that is all that was stored, only zeros follow. */
  lemma Extended(was: seq<byte>, now: seq<byte>, at: nat, a: Attr)
    requires HEADER_LEN <= at && at + |Stored(a)| <= |was| && forall i | at <= i < |was| :: was[i] == 0
    requires now == was[..at] + Stored(a) + was[at + |Stored(a)|..] && |Sent(a)| <= |Stored(a)|
    ensures now[HEADER_LEN..at + |Sent(a)|] == was[HEADER_LEN..at] + Sent(a)
    ensures a.Fits() ==> forall i | at + |Sent(a)| <= i < |now| :: now[i] == 0
  {
    hide Stored, Align;
    assert now[at..at + |Sent(a)|] == Sent(a);
    if a.Fits() {
      SentWhole(a);
    }
  }

  lemma SentLength(a: Attr)
    ensures |Sent(a)| == Align(a.Length() % 0x1_0000) <= |Stored(a)|
  {
    hide Stored, Align;
    AlignGrows(a.Length() % 0x1_0000, a.Length());
  }

  lemma AlignGrows(m: nat, n: nat)
    requires m <= n
    ensures Align(m) <= Align(n)
  {
  }

  // ---- the reader ----

  /** `Unknown`: an attribute type out of range, after what came before it took effect.
      `Endless`: an attribute of length 0, on which the walk never advances. `Overrun`: bytes are
      read that the message does not have. */
  datatype Outcome = Done(table: seq<nat>, log: seq<seq<byte>>) | Unknown(table: seq<nat>, log: seq<seq<byte>>)
                   | Endless | Overrun

  /** The text up to the first NUL. */
  function CString(b: seq<byte>): seq<byte>
  {
    if b == [] || b[0] == 0 then [] else [b[0]] + CString(b[1..])
  }

  datatype Turn = Stop(outcome: Outcome) | Go(table: seq<nat>, log: seq<seq<byte>>, len: nat)

  /** What the reader does with the attribute at the start of `b`. */
  function OneAttr(b: seq<byte>, table: seq<nat>, log: seq<seq<byte>>): (t: Turn)
    requires |table| == ATTR_MAX
    ensures t.Go? ==> t.len > 0 && |t.table| == ATTR_MAX
  {
    if |b| < 4 then Stop(Overrun)
    else
      var len, ty := Align(FromU16(b)), FromU16(b[2..]);
      if ty >= ATTR_MAX then Stop(Unknown(table, log))
      else if ty == GEN_MSG && 0 !in b[4..] then Stop(Overrun)
      else if ty != GEN_MSG && |b| < 8 then Stop(Overrun)
      else if len == 0 then Stop(Endless)
      else if ty == GEN_MSG then Go(table, log + [CString(b[4..])], len)
      else Go(table[ty := FromU32(b[4..])], log, len)
  }

  function Read(b: seq<byte>, table: seq<nat>, log: seq<seq<byte>>): Outcome
    requires |table| == ATTR_MAX
    decreases |b|
  {
    if b == [] then Done(table, log)
    else
      match OneAttr(b, table, log)
      case Stop(outcome) => outcome
      case Go(table', log', len) => if len >= |b| then Done(table', log') else Read(b[len..], table', log')
  }

  /** Why a walk ends: all bytes taken, an error code to return, or one of the two accidents. */
  datatype Ending = Good | Error(rc: int) | Stuck | Astray

  predicate Ends(o: Outcome, e: Ending, table: seq<nat>, log: seq<seq<byte>>)
  {
    match o
    case Done(t, l) => e == Good && table == t && log == l
    case Unknown(t, l) => e == Error(-EINVAL) && table == t && log == l
    case Endless => e == Stuck
    case Overrun => e == Astray
  }

  /** `recv_attrs` on the part of the message behind its header. */
  method RecvAttrs(body: seq<byte>, attrs: array<nat>) returns (e: Ending, log: seq<seq<byte>>)
    requires attrs.Length == ATTR_MAX
    modifies attrs
    ensures Ends(Read(body, old(attrs[..]), []), e, attrs[..], log)
  {
    hide OneAttr;
    log := [];
    var p, left: int := 0, |body|;
    while left > 0
      invariant 0 <= p && left == |body| - p
      invariant p <= |body| ==> Read(body, old(attrs[..]), []) == Read(body[p..], attrs[..], log)
      invariant p > |body| ==> Read(body, old(attrs[..]), []) == Done(attrs[..], log)
      decreases left
    {
      ghost var na := body[p..];
      var len;
      e, log, len := TakeAttr(body[p..], attrs, log);
      if e != Good {
        return;
      }
      assert len < |na| ==> na[len..] == body[p + len..];
      p := p + len;
      left := left - len;
    }
    e := Good;
  }

  method TakeAttr(na: seq<byte>, attrs: array<nat>, log0: seq<seq<byte>>) returns (e: Ending, log: seq<seq<byte>>, len: nat)
    requires attrs.Length == ATTR_MAX
    modifies attrs
    ensures match OneAttr(na, old(attrs[..]), log0)
      case Stop(outcome) => e != Good && Ends(outcome, e, attrs[..], log)
      case Go(table, texts, n) => e == Good && attrs[..] == table && log == texts && len == n
  {
    hide FromU16, FromU32, Align, CString;
    e, log, len := Good, log0, 0;
    if |na| < 4 { return Astray, log, 0; }
    len := Align(FromU16(na));
    var ty := FromU16(na[2..]);
    if ty >= ATTR_MAX { return Error(-EINVAL), log, len; }
    if ty == GEN_MSG {
      if 0 !in na[4..] { return Astray, log, len; }
      log := log + [CString(na[4..])];
    } else {
      if |na| < 8 { return Astray, log, len; }
      attrs[ty] := FromU32(na[4..]);
    }
    if len == 0 { return Stuck, log, len; }
  }

  // ---- round trip ----

  predicate WellTyped(attrs: seq<Attr>)
  {
    forall i | 0 <= i < |attrs| :: attrs[i].WellTyped()
  }

  function Entered(table: seq<nat>, a: Attr): (r: seq<nat>)
    requires |table| == ATTR_MAX && a.WellTyped()
    ensures |r| == ATTR_MAX
  {
    if a.IntAttr? then table[a.ty := a.v] else table
  }

  /** The table after the numbers of the attributes have been entered in order. */
  function Effect(table: seq<nat>, attrs: seq<Attr>): (r: seq<nat>)
    requires |table| == ATTR_MAX && WellTyped(attrs)
    ensures |r| == ATTR_MAX
    decreases |attrs|
  {
    if attrs == [] then table else Effect(Entered(table, attrs[0]), attrs[1..])
  }

  function Texts(attrs: seq<Attr>): seq<seq<byte>>
  {
    if attrs == [] then []
    else (if attrs[0].StrAttr? then [attrs[0].s] else []) + Texts(attrs[1..])
  }

  lemma {:induction false} CStringOf(s: seq<byte>, rest: seq<byte>)
    requires 0 !in s
    ensures CString(s + [0] + rest) == s && 0 in s + [0] + rest
  {
    var b := s + [0] + rest;
    assert b[|s|] == 0;
    if s != [] {
      assert b[1..] == s[1..] + [0] + rest && b[0] == s[0];
      CStringOf(s[1..], rest);
    }
  }

  lemma SentWhole(a: Attr)
    requires a.Fits()
    ensures Sent(a) == Stored(a)
  {
  }

  /** What the reader sees at the start of an attribute that was written whole. */
  lemma Seen(a: Attr, rest: seq<byte>)
    requires a.WellTyped() && a.Fits()
    ensures var b := Sent(a) + rest;
      && |b| >= 8 && FromU16(b) == a.Length() && FromU16(b[2..]) == a.ty && b[Align(a.Length())..] == rest
      && (a.IntAttr? ==> FromU32(b[4..]) == a.v)
      && (a.StrAttr? ==> 0 in b[4..] && CString(b[4..]) == a.s)
  {
    hide FromU16, FromU32, U16, U32, Align, Sent;
    SentWhole(a);
    var b := Sent(a) + rest;
    assert b[Align(a.Length())..] == rest;
    U16RoundTrip(a.Length());
    U16RoundTrip(a.ty);
    Prefix16(b, a.Length());
    Prefix16(b[2..], a.ty);
    match a
    case IntAttr(_, v) => SeenNumber(a, rest);
    case StrAttr(_, s) => SeenText(a, rest);
  }

  lemma SeenNumber(a: Attr, rest: seq<byte>)
    requires a.IntAttr? && a.WellTyped()
    ensures FromU32((Stored(a) + rest)[4..]) == a.v
  {
    hide FromU16, FromU32, U16, U32, Align;
    assert (Stored(a) + rest)[4..] == U32(a.v) + rest;
    U32RoundTrip(a.v);
    Prefix32((Stored(a) + rest)[4..], a.v);
  }

  lemma SeenText(a: Attr, rest: seq<byte>)
    requires a.StrAttr? && a.WellTyped() && a.Fits()
    ensures 0 in (Stored(a) + rest)[4..] && CString((Stored(a) + rest)[4..]) == a.s
  {
    hide U16, Align, CString;
    var pad := |Stored(a)| - 5 - |a.s|;
    assert Zeros(pad + 1) == [0] + Zeros(pad);
    assert (Stored(a) + rest)[4..] == a.s + [0] + (Zeros(pad) + rest);
    CStringOf(a.s, Zeros(pad) + rest);
  }

  lemma Prefix16(b: seq<byte>, x: nat)
    requires |b| >= 2 && b[..2] == U16(x)
    ensures FromU16(b) == FromU16(U16(x))
  {
    assert b[0] == b[..2][0] && b[1] == b[..2][1];
  }

  lemma Prefix32(b: seq<byte>, x: nat)
    requires |b| >= 4 && b[..4] == U32(x)
    ensures FromU32(b) == FromU32(U32(x))
  {
    assert b[0] == b[..4][0] && b[1] == b[..4][1] && b[2] == b[..4][2] && b[3] == b[..4][3];
  }

  lemma OneSeen(a: Attr, rest: seq<byte>, table: seq<nat>, log: seq<seq<byte>>)
    requires |table| == ATTR_MAX && a.WellTyped() && a.Fits()
    ensures OneAttr(Sent(a) + rest, table, log)
         == Go(Entered(table, a), if a.StrAttr? then log + [a.s] else log, Align(a.Length()))
    ensures |Sent(a)| == Align(a.Length()) > 0
  {
    hide FromU16, FromU32, Align, CString, Sent;
    Seen(a, rest);
    SentWhole(a);
  }

  lemma ReadFirst(a: Attr, rest: seq<byte>, table: seq<nat>, log: seq<seq<byte>>)
    requires |table| == ATTR_MAX && a.WellTyped() && a.Fits()
    ensures Read(Sent(a) + rest, table, log) == Read(rest, Entered(table, a), if a.StrAttr? then log + [a.s] else log)
  {
    hide OneAttr, Sent, Entered, Align;
    OneSeen(a, rest, table, log);
    assert (Sent(a) + rest)[|Sent(a)|..] == rest;
  }

  /** The reader takes in what the writer has written, whatever follows. */
  lemma {:induction false} ReadOn(attrs: seq<Attr>, b: seq<byte>, table: seq<nat>, log: seq<seq<byte>>)
    requires |table| == ATTR_MAX && WellTyped(attrs) && forall i | 0 <= i < |attrs| :: attrs[i].Fits()
    ensures Read(SentAll(attrs) + b, table, log) == Read(b, Effect(table, attrs), log + Texts(attrs))
  {
    hide Read, Sent, Entered;
    if attrs == [] {
      assert SentAll(attrs) + b == b && log + [] == log;
    } else {
      var a, rest := attrs[0], SentAll(attrs[1..]) + b;
      assert SentAll(attrs) + b == Sent(a) + rest;
      ReadFirst(a, rest, table, log);
      var log' := if a.StrAttr? then log + [a.s] else log;
      assert log + Texts(attrs) == log' + Texts(attrs[1..]);
      ReadOn(attrs[1..], b, Entered(table, a), log');
    }
  }

  /** The reader undoes the writer: for any list of well-typed attributes whose texts are short
      enough, it walks exactly the bytes written and ends with the numbers of the last writers
      and the texts in order. */
  lemma RoundTrip(attrs: seq<Attr>, table: seq<nat>, log: seq<seq<byte>>)
    requires |table| == ATTR_MAX && WellTyped(attrs) && forall i | 0 <= i < |attrs| :: attrs[i].Fits()
    ensures Read(SentAll(attrs), table, log) == Done(Effect(table, attrs), log + Texts(attrs))
  {
    ReadOn(attrs, [], table, log);
    assert SentAll(attrs) + [] == SentAll(attrs);
  }

  /** The bytes of a number: its length and type, then its value, least byte first. */
  lemma NumberBytes(ty: nat, v: nat)
    requires ty < 0x1_0000 && v < 0x1_0000_0000
    ensures Sent(IntAttr(ty, v)) ==
      [8, 0, ty % 256, ty / 256, v % 256, v / 0x100 % 256, v / 0x1_0000 % 256, v / 0x100_0000]
  {
    SentWhole(IntAttr(ty, v));
    Quarters(v);
  }

  lemma Quarters(v: nat)
    requires v < 0x1_0000_0000
    ensures U32(v) == [v % 256, v / 0x100 % 256, v / 0x1_0000 % 256, v / 0x100_0000]
  {
    assert v == 0x1_0000 * (v / 0x1_0000) + v % 0x1_0000;
    assert (v % 0x1_0000) % 256 == v % 256;
    assert (v % 0x1_0000) / 256 % 256 == v / 256 % 256;
    assert v / 0x1_0000 / 256 == v / 0x100_0000;
  }

  /** The bytes of a text: its length with header and NUL, its type, the text, a NUL, and zeros up
      to a multiple of four. */
  lemma TextBytes(s: seq<byte>)
    requires |s| <= 65530
    ensures exists pad: nat | pad < 4 ::
      Sent(StrAttr(GEN_MSG, s)) == [(|s| + 5) % 256, (|s| + 5) / 256, 0, 0] + s + [0] + Zeros(pad) && (|s| + 5 + pad) % 4 == 0
  {
    hide Align, Sent;
    var a := StrAttr(GEN_MSG, s);
    SentWhole(a);
    var n := |s| + 5;
    var pad := Align(n) - n;
    assert Zeros(pad + 1) == [0] + Zeros(pad);
    assert U16(n % 0x1_0000) + U16(GEN_MSG) == [n % 256, n / 256, 0, 0];
    assert Sent(a) == [n % 256, n / 256, 0, 0] + s + [0] + Zeros(pad);
  }

  /** After any attributes of the writer's own, one of a type out of range ends the walk with an
      error, and what came before it stands. */
  lemma UnknownType(attrs: seq<Attr>, n: nat, ty: nat, v: nat, table: seq<nat>, log: seq<seq<byte>>)
    requires |table| == ATTR_MAX && WellTyped(attrs) && forall i | 0 <= i < |attrs| :: attrs[i].Fits()
    requires n < 0x1_0000 && 71 <= ty < 0x1_0000
    ensures var o := Read(SentAll(attrs) + Mislabelled(n, ty, v), table, log);
      && o == Unknown(Effect(table, attrs), log + Texts(attrs))
      && (forall e, tab, texts | Ends(o, e, tab, texts) :: e == Error(-22))
  {
    hide FromU16, FromU32, U16, U32, Align, SentAll, Texts;
    var b := Mislabelled(n, ty, v);
    ReadOn(attrs, b, table, log);
    U16RoundTrip(ty);
    Prefix16(b[2..], ty);
  }

  // ---- the walk that never ends ----

  /** A number attribute whose length field holds `n` in place of 8. */
  function Mislabelled(n: nat, ty: nat, v: nat): (r: seq<byte>)
    ensures |r| == 8
  {
    U16(n) + U16(ty) + U32(v)
  }

  /** After any attributes of the writer's own, one whose length field is wrong holds the reader for
      ever if and only if that field is 0. */
  lemma EndlessExactly(attrs: seq<Attr>, n: nat, ty: nat, v: nat, table: seq<nat>, log: seq<seq<byte>>)
    requires |table| == ATTR_MAX && WellTyped(attrs) && forall i | 0 <= i < |attrs| :: attrs[i].Fits()
    requires n < 0x1_0000 && 0 < ty < ATTR_MAX
    ensures Read(SentAll(attrs) + Mislabelled(n, ty, v), table, log) == Endless <==> n == 0
  {
    hide Read, Mislabelled, SentAll, Texts;
    ReadOn(attrs, Mislabelled(n, ty, v), table, log);
    MislabelledAlone(n, ty, v, Effect(table, attrs), log + Texts(attrs));
  }

  lemma MislabelledAlone(n: nat, ty: nat, v: nat, table: seq<nat>, log: seq<seq<byte>>)
    requires |table| == ATTR_MAX && n < 0x1_0000 && 0 < ty < ATTR_MAX
    ensures Read(Mislabelled(n, ty, v), table, log) == Endless <==> n == 0
  {
    hide FromU16, FromU32, U16, U32, Align;
    var b := Mislabelled(n, ty, v);
    U16RoundTrip(n);
    U16RoundTrip(ty);
    Prefix16(b, n);
    Prefix16(b[2..], ty);
    AlignSteps(n);
    if 0 < n <= 4 {
      LastFour(b[4..], table[ty := FromU32(b[4..])], log);
    }
  }

  lemma AlignSteps(n: nat)
    ensures if n == 0 then Align(n) == 0 else if n <= 4 then Align(n) == 4 else Align(n) >= 8
  {
  }

  /** Four bytes cannot hold a number or a text. */
  lemma LastFour(b: seq<byte>, table: seq<nat>, log: seq<seq<byte>>)
    requires |b| == 4 && |table| == ATTR_MAX
    ensures Read(b, table, log).Overrun? || Read(b, table, log).Unknown?
  {
    hide FromU16, FromU32, Align;
  }

  /** One such attribute and nothing else: length 0, type 1, value 0. */
  lemma EndlessMessage(table: seq<nat>)
    requires |table| == ATTR_MAX
    ensures Read([0, 0, 1, 0, 0, 0, 0, 0], table, []) == Endless
  {
    hide Read, OneAttr;
    EndlessExactly([], 0, 1, 0, table, []);
    assert SentAll([]) + Mislabelled(0, 1, 0) == [0, 0, 1, 0, 0, 0, 0, 0];
  }

  lemma OneAttrAdvances(b: seq<byte>, table: seq<nat>, log: seq<seq<byte>>)
    requires |table| == ATTR_MAX
    ensures match OneAttr(b, table, log)
      case Stop(o) => o == Endless ==> |b| >= 4 && FromU16(b) == 0
      case Go(_, _, len) => len % 4 == 0
  {
    hide FromU16, FromU32, Align, CString;
    if |b| >= 4 {
      AlignSteps(FromU16(b));
    }
  }

  /** No message without a zero where a length field may stand holds the reader for ever. */
  lemma {:induction false} NeverEndless(b: seq<byte>, table: seq<nat>, log: seq<seq<byte>>)
    requires |table| == ATTR_MAX && forall k: nat | k % 4 == 0 && k + 4 <= |b| :: FromU16(b[k..]) != 0
    ensures Read(b, table, log) != Endless
    decreases |b|
  {
    hide OneAttr, FromU16;
    OneAttrAdvances(b, table, log);
    if b != [] {
      match OneAttr(b, table, log)
      case Stop(_) => assert b[0..] == b;
      case Go(table', log', len) =>
        if len < |b| {
          forall k: nat | k % 4 == 0 && k + 4 <= |b[len..]| ensures FromU16(b[len..][k..]) != 0 {
            assert b[len..][k..] == b[len + k..] && (len + k) % 4 == 0;
          }
          NeverEndless(b[len..], table', log');
        }
    }
  }

  /** The number kept for a type is that of the last attribute of the type, or the old one. */
  lemma {:induction false} LastWriter(table: seq<nat>, attrs: seq<Attr>, i: nat, ty: nat)
    requires |table| == ATTR_MAX && 0 < ty < ATTR_MAX && WellTyped(attrs) && i <= |attrs|
    requires forall j | i <= j < |attrs| && attrs[j].IntAttr? :: attrs[j].ty != ty
    ensures i == 0 ==> Effect(table, attrs)[ty] == table[ty]
    ensures i > 0 && attrs[i - 1].IntAttr? && attrs[i - 1].ty == ty ==> Effect(table, attrs)[ty] == attrs[i - 1].v
    decreases |attrs|
  {
    if attrs != [] {
      LastWriter(Entered(table, attrs[0]), attrs[1..], if i == 0 then 0 else i - 1, ty);
    }
  }

  /** A text comes back if and only if its length with header and NUL fits in 16 bits: 65530
      bytes at most. */
  lemma TextFits(s: seq<byte>, table: seq<nat>)
    requires 0 !in s && |table| == ATTR_MAX
    ensures Read(Sent(StrAttr(GEN_MSG, s)), table, []) == Done(table, [s]) <==> |s| <= 65530
  {
    var a := StrAttr(GEN_MSG, s);
    if a.Fits() {
      RoundTrip([a], table, []);
      assert SentAll([a]) == Sent(a) + [] == Sent(a);
      assert Texts([a]) == [s] + [] == [s];
      assert Effect(table, [a]) == table;
    } else {
      CutText(a);
    }
  }

  /** What is sent of a longer text holds no NUL, and may even be nothing. */
  lemma CutText(a: Attr)
    requires a.WellTyped() && a.StrAttr? && !a.Fits()
    ensures |Sent(a)| < 4 || 0 !in Sent(a)[4..]
    ensures |Sent(a)| >= 4 ==> FromU16(Sent(a)[2..]) == a.ty
  {
    hide Align, U16, FromU16;
    SentLength(a);
    U16RoundTrip(a.ty);
    var n := a.Length() % 0x1_0000;
    assert Align(n) <= n + 3 <= |a.s| + 4 - 4;
    if |Sent(a)| >= 4 {
      assert Sent(a)[4..] == a.s[..Align(n) - 4];
      assert Stored(a)[2..4] == U16(a.ty);
      assert Sent(a)[2..][..2] == U16(a.ty);
      Prefix16(Sent(a)[2..], a.ty);
    }
  }
}
