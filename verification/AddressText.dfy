/** Decimal numbers and dotted quads, as printf, atoi, inet_ntop and inet_pton write and read them. */
module Decimals {
  import opened Winsock

  type Byte = n: nat | n < 256

  predicate IsDigit(c: char) { '0' <= c <= '9' }

  function DigitOf(d: nat): (c: char)
    requires d < 10
    ensures IsDigit(c)
  {
    '0' + d as char
  }

  /** The text of %d for a number that is not negative. */
  function Decimal(n: nat): (s: string)
    ensures |s| > 0 && forall c | c in s :: IsDigit(c)
    ensures s[0] == '0' ==> n == 0
  {
    if n < 10 then [DigitOf(n)] else Decimal(n / 10) + [DigitOf(n % 10)]
  }

  predicate AllDigits(s: string) { forall c | c in s :: IsDigit(c) }

  function Value(s: string): nat
    requires AllDigits(s)
  {
    if s == [] then 0
    else
      assert s[|s| - 1] in s;
      Value(s[..|s| - 1]) * 10 + (s[|s| - 1] as int - '0' as int)
  }

  lemma {:induction false} ValueOfDecimal(n: nat)
    ensures Value(Decimal(n)) == n
    decreases n
  {
    if n >= 10 {
      ValueOfDecimal(n / 10);
      assert Decimal(n)[..|Decimal(n)| - 1] == Decimal(n / 10);
    }
  }

  /** n has at most k digits when it is below the k-th power of ten. */
  function Pow10(k: nat): nat { if k == 0 then 1 else 10 * Pow10(k - 1) }

  lemma {:induction false} DecimalLength(n: nat, k: nat)
    requires k >= 1 && n < Pow10(k)
    ensures |Decimal(n)| <= k
    decreases k
  {
    if n >= 10 {
      assert k > 1;
      DecimalLength(n / 10, k - 1);
    }
  }

  /** How many leading characters are digits. */
  function DigitRun(s: string): (i: nat)
    ensures i <= |s| && AllDigits(s[..i])
    ensures i < |s| ==> !IsDigit(s[i])
  {
    if s == [] || !IsDigit(s[0]) then 0
    else
      var i := 1 + DigitRun(s[1..]);
      assert s[..i] == [s[0]] + s[1..][..i - 1];
      i
  }

  predicate IsSpace(c: char) { c == ' ' || '\t' <= c <= '\r' }

  /** atoi: white space, a sign, then as many digits as there are. */
  function Atoi(s: string): int {
    if s != [] && IsSpace(s[0]) then Atoi(s[1..])
    else if s != [] && s[0] == '-' then 0 - Value(s[1..][..DigitRun(s[1..])])
    else if s != [] && s[0] == '+' then Value(s[1..][..DigitRun(s[1..])])
    else Value(s[..DigitRun(s)])
  }

  lemma AtoiOfDecimal(n: nat)
    ensures Atoi(Decimal(n)) == n
  {
    var s := Decimal(n);
    assert forall j | 0 <= j < |s| :: s[j] in s;
    assert s[..DigitRun(s)] == s;
    ValueOfDecimal(n);
  }

  /** White space in the C locale. */
  lemma SpacesAre(c: char)
    ensures IsSpace(c) <==> c in " \t\n\U{0b}\U{0c}\r"
  {
  }

  function SignedBy(sign: string, n: int): int { if sign == "-" then 0 - n else n }

  /** atoi skips white space, takes one sign, and stops at the first character that is not a digit. */
  lemma {:induction false} AtoiReads(spaces: string, sign: string, n: nat, rest: string)
    requires (forall c | c in spaces :: IsSpace(c)) && (sign == "" || sign == "+" || sign == "-")
    requires rest != [] ==> !IsDigit(rest[0])
    ensures Atoi(spaces + (sign + (Decimal(n) + rest))) == SignedBy(sign, n)
    decreases |spaces|
  {
    var tail := sign + (Decimal(n) + rest);
    if spaces == [] {
      assert spaces + tail == tail;
      DigitsThen(Decimal(n), rest);
      ValueOfDecimal(n);
      var digits := Decimal(n) + rest;
      assert (sign + digits)[|sign|..] == digits;
      assert digits[0] == Decimal(n)[0] && Decimal(n)[0] in Decimal(n);
      if sign == "" { assert tail == digits; }
    } else {
      assert (spaces + tail)[1..] == spaces[1..] + tail && spaces[0] in spaces;
      AtoiReads(spaces[1..], sign, n, rest);
    }
  }

  lemma DigitsThen(digits: string, rest: string)
    requires AllDigits(digits) && (rest != [] ==> !IsDigit(rest[0]))
    ensures (digits + rest)[..DigitRun(digits + rest)] == digits
  {
    var s, i := digits + rest, DigitRun(digits + rest);
    assert forall j | 0 <= j < |digits| :: s[j] == digits[j] && digits[j] in digits;
    assert forall j | 0 <= j < i :: s[..i][j] == s[j] && s[..i][j] in s[..i];
    assert s[..|digits|] == digits;
  }

  /** Text that starts with no number is zero. */
  lemma AtoiOfNoNumber(s: string)
    requires s != [] ==> !IsSpace(s[0]) && !IsDigit(s[0]) && s[0] != '-' && s[0] != '+'
    ensures Atoi(s) == 0
  {
  }

  /** The pieces of s between separators. */
  function Split(s: string, sep: char): (parts: seq<string>)
    ensures |parts| > 0
  {
    if s == [] then [[]]
    else
      var rest := Split(s[1..], sep);
      if s[0] == sep then [[]] + rest else [[s[0]] + rest[0]] + rest[1..]
  }

  function Join(parts: seq<string>, sep: char): string {
    if parts == [] then [] else if |parts| == 1 then parts[0] else parts[0] + [sep] + Join(parts[1..], sep)
  }

  lemma {:induction false} SplitPrefix(p: string, s: string, sep: char)
    requires sep !in p
    ensures Split(p + s, sep) == [p + Split(s, sep)[0]] + Split(s, sep)[1..]
    decreases |p|
  {
    if p == [] {
      assert p + s == s && p + Split(s, sep)[0] == Split(s, sep)[0];
    } else {
      SplitPrefix(p[1..], s, sep);
      assert (p + s)[1..] == p[1..] + s;
      assert [p[0]] + (p[1..] + Split(s, sep)[0]) == p + Split(s, sep)[0];
    }
  }

  lemma {:induction false} SplitOfJoin(parts: seq<string>, sep: char)
    requires |parts| > 0 && forall p | p in parts :: sep !in p
    ensures Split(Join(parts, sep), sep) == parts
    decreases |parts|
  {
    var p := parts[0];
    if |parts| == 1 {
      SplitPrefix(p, [], sep);
      assert p + [] == p && parts == [p];
    } else {
      var rest := Join(parts[1..], sep);
      SplitOfJoin(parts[1..], sep);
      SplitPrefix(p, [sep] + rest, sep);
      assert ([sep] + rest)[1..] == rest;
      assert p + ([sep] + rest) == p + [sep] + rest;
      assert p + [] == p && [p] + parts[1..] == parts;
    }
  }

  /** inet_ntop for IPv4. */
  function Ntop4(a: seq<Byte>): string
    requires |a| == 4
  {
    Join([Decimal(a[0]), Decimal(a[1]), Decimal(a[2]), Decimal(a[3])], '.')
  }

  /** One part of a dotted quad: digits, no leading zero, at most 255. */
  predicate IsOctet(s: string) {
    s != [] && AllDigits(s) && (|s| == 1 || s[0] != '0') && Value(s) < 256
  }

  /** inet_pton for IPv4. */
  function Pton4(s: string): Option<seq<Byte>> {
    var p := Split(s, '.');
    if |p| == 4 && IsOctet(p[0]) && IsOctet(p[1]) && IsOctet(p[2]) && IsOctet(p[3])
    then Some([Value(p[0]), Value(p[1]), Value(p[2]), Value(p[3])])
    else None
  }

  lemma OctetOfByte(n: Byte)
    ensures IsOctet(Decimal(n)) && Value(Decimal(n)) == n && '.' !in Decimal(n) && |Decimal(n)| <= 3
  {
    ValueOfDecimal(n);
    DecimalLength(n, 3);
  }

  /** Dotted quads read back as the address they print, and are at most 15 characters long. */
  lemma Pton4OfNtop4(a: seq<Byte>)
    requires |a| == 4
    ensures Pton4(Ntop4(a)) == Some(a) && |Ntop4(a)| <= 15
  {
    var parts := [Decimal(a[0]), Decimal(a[1]), Decimal(a[2]), Decimal(a[3])];
    OctetOfByte(a[0]);
    OctetOfByte(a[1]);
    OctetOfByte(a[2]);
    OctetOfByte(a[3]);
    SplitOfJoin(parts, '.');
    JoinOfFour(parts[0], parts[1], parts[2], parts[3]);
    assert [a[0], a[1], a[2], a[3]] == a;
  }

  /** A digit text without a leading zero is the decimal form of its value. */
  lemma {:induction false} DecimalOfValue(s: string)
    requires s != [] && AllDigits(s) && (|s| == 1 || s[0] != '0')
    ensures Decimal(Value(s)) == s
    ensures s[0] != '0' ==> Value(s) > 0
    decreases |s|
  {
    var n := |s| - 1;
    var front := s[..n];
    assert s[n] in s && s[0] in s;
    if n > 0 {
      assert forall c | c in front :: c in s;
      DecimalOfValue(front);
      assert Value(s) / 10 == Value(front);
      assert s == front + [s[n]];
    } else {
      assert s[..0] == [];
    }
  }

  lemma {:induction false} JoinOfSplit(s: string, sep: char)
    ensures Join(Split(s, sep), sep) == s
    decreases |s|
  {
    if s != [] {
      var rest := Split(s[1..], sep);
      JoinOfSplit(s[1..], sep);
      if s[0] == sep {
        assert ([[]] + rest)[1..] == rest;
      } else {
        assert ([[s[0]] + rest[0]] + rest[1..])[1..] == rest[1..];
      }
    }
  }

  /** inet_pton accepts exactly the texts inet_ntop prints. */
  lemma Pton4Exact(s: string, a: seq<Byte>)
    requires |a| == 4
    ensures Pton4(s) == Some(a) <==> s == Ntop4(a)
  {
    Pton4OfNtop4(a);
    if Pton4(s) == Some(a) {
      var p := Split(s, '.');
      JoinOfSplit(s, '.');
      DecimalOfValue(p[0]);
      DecimalOfValue(p[1]);
      DecimalOfValue(p[2]);
      DecimalOfValue(p[3]);
      assert p == [Decimal(a[0]), Decimal(a[1]), Decimal(a[2]), Decimal(a[3])];
    }
  }

  lemma JoinOfFour(p: string, q: string, r: string, s: string)
    ensures Join([p, q, r, s], '.') == p + ['.'] + (q + ['.'] + (r + ['.'] + s))
  {
    assert [r, s][1..] == [s] && Join([r, s], '.') == r + ['.'] + s;
    assert [q, r, s][1..] == [r, s] && Join([q, r, s], '.') == q + ['.'] + (r + ['.'] + s);
    assert [p, q, r, s][1..] == [q, r, s];
  }

}

/** WSAAddressToStringA and WSAStringToAddressA. */
module AddressText {
  import opened Winsock
  import opened Decimals

  const AF_INET := 2
  const AF_INET6 := 10
  const INET6_ADDRSTRLEN := 46
  const SIZEOF_SOCKADDR_IN := 16
  const SIZEOF_SOCKADDR_IN6 := 28

  /** The local buffer for address and port. */
  const BUFFER_SIZE := INET6_ADDRSTRLEN + 16

  /** Socket addresses; the port is kept in network order, as in memory. */
  datatype SockAddr =
    | In(port: nat, addr: seq<Byte>)
    | In6(port: nat, flowinfo: nat, addr6: seq<Byte>, scope: nat)
    | Other(family: int)

  predicate ValidAddr(sa: SockAddr) {
    match sa
    case In(port, a) => port < 0x1_0000 && |a| == 4
    case In6(port, _, a, _) => port < 0x1_0000 && |a| == 16
    case Other(family) => family != AF_INET && family != AF_INET6
  }

  /** htons and ntohs on a little-endian host: the two bytes change places. */
  function Swap16(n: nat): (r: nat)
    requires n < 0x1_0000
    ensures r < 0x1_0000
  {
    n % 256 * 256 + n / 256
  }

  lemma SwapTwice(n: nat)
    requires n < 0x1_0000
    ensures Swap16(Swap16(n)) == n
  {
  }

  /** The two bytes of a port field in memory. */
  function InMemory(port: nat): (bytes: seq<Byte>)
    requires port < 0x1_0000
    ensures |bytes| == 2
  {
    [port % 256, port / 256]
  }

  /** The number whose high byte comes first. */
  function BigEndian(bytes: seq<Byte>): nat
    requires |bytes| == 2
  {
    bytes[0] as nat * 256 + bytes[1]
  }

  /** A stored port has its high byte first, and a port is read that way. */
  lemma NetworkOrder(n: nat)
    requires n < 0x1_0000
    ensures InMemory(Swap16(n))[0] == n / 256 && InMemory(Swap16(n))[1] == n % 256
    ensures Swap16(n) == BigEndian(InMemory(n))
  {
  }

  /** The IPv6 text functions of the C library. */
  datatype Inet6 = Inet6(ntop: seq<Byte> -> string, pton: string -> Option<seq<Byte>>)

  /** What is relied on for one address: it reads back and its text is at most 45 characters. */
  ghost predicate Inverse(lib: Inet6, a: seq<Byte>) {
    lib.pton(lib.ntop(a)) == Some(a) && |lib.ntop(a)| < INET6_ADDRSTRLEN
  }

  /** inet_ntop into a buffer: no result when the text and its terminator do not fit. */
  function InetNtop(text: string, size: nat): (r: Option<string>)
    ensures r == Some(text) || r == None
    ensures r == None <==> |text| >= size
  {
    if |text| + 1 <= size then Some(text) else None
  }

  /** What snprintf leaves of a text: at most size - 1 characters. */
  function Snprintf(text: string, size: nat): (r: string)
    requires size > 0
    ensures r <= text && |r| < size
    ensures r != text ==> |r| == size - 1
  {
    if |text| < size then text else text[..size - 1]
  }

  /** The text in the local buffer, or None when inet_ntop failed. */
  function BufferText(sa: SockAddr, lib: Inet6): Option<string>
    requires ValidAddr(sa) && !sa.Other?
  {
    var host := InetNtop(if sa.In? then Ntop4(sa.addr) else lib.ntop(sa.addr6), BUFFER_SIZE);
    if host == None then None
    else Some(host.value + Snprintf([':'] + Decimal(Swap16(sa.port)), BUFFER_SIZE - |host.value|))
  }

  /** The address and port text without any buffer in the way. */
  function FullText(sa: SockAddr, lib: Inet6): string
    requires ValidAddr(sa) && !sa.Other?
  {
    (if sa.In? then Ntop4(sa.addr) else lib.ntop(sa.addr6)) + [':'] + Decimal(Swap16(sa.port))
  }

  /** The last ':' of s, or -1: strrchr. */
  function LastColon(s: string): (i: int)
    ensures -1 <= i < |s|
    ensures i >= 0 ==> s[i] == ':'
    ensures forall j | i < j < |s| :: s[j] != ':'
  {
    if s == [] then -1 else if s[|s| - 1] == ':' then |s| - 1 else LastColon(s[..|s| - 1])
  }

  /** How WSAStringToAddressA takes a text apart, or None when the address part is too long. */
  function TakeApart(s: string): Option<(string, int)> {
    var i := LastColon(s);
    if i >= INET6_ADDRSTRLEN then None
    else if i >= 0 then Some((s[..i], Atoi(s[i + 1..])))
    else Some((if |s| < INET6_ADDRSTRLEN then s else s[..INET6_ADDRSTRLEN - 1], 0))
  }

  /** What a parse leaves behind: the answer, the length, and the address if memory was written. */
  datatype Parsed = Parsed(answer: Answer, length: int, stored: Option<SockAddr>)

  function Parse(s: string, family: int, length: int, lib: Inet6): Parsed {
    match TakeApart(s)
    case None => Parsed(Answer(SOCKET_ERROR, WSAEINVAL), length, None)
    case Some((host, port)) =>
      if family == AF_INET then
        if length < SIZEOF_SOCKADDR_IN then Parsed(Answer(SOCKET_ERROR, WSAEFAULT), SIZEOF_SOCKADDR_IN, None)
        else
          var a := Pton4(host);
          // the port is stored even when the address is not understood
          Parsed(if a.Some? then Answer(0, 0) else Answer(SOCKET_ERROR, WSAEINVAL), SIZEOF_SOCKADDR_IN,
                 Some(In(Swap16(port % 0x1_0000), if a.Some? then a.value else Zeros(4))))
      else if family == AF_INET6 then
        if length < SIZEOF_SOCKADDR_IN6 then Parsed(Answer(SOCKET_ERROR, WSAEFAULT), SIZEOF_SOCKADDR_IN6, None)
        else
          var a := lib.pton(host);
          Parsed(if a.Some? then Answer(0, 0) else Answer(SOCKET_ERROR, WSAEINVAL), SIZEOF_SOCKADDR_IN6,
                 Some(In6(Swap16(port % 0x1_0000), 0, if a.Some? then a.value else Zeros(16), 0)))
      else Parsed(Answer(SOCKET_ERROR, WSAEAFNOSUPPORT), length, None)
  }

  function Zeros(n: nat): seq<Byte> { seq(n, _ => 0) }

  /** Neither inet_ntop nor snprintf ever truncates: the text and terminator always fit. */
  lemma TextFits(sa: SockAddr, lib: Inet6)
    requires ValidAddr(sa) && !sa.Other? && (sa.In6? ==> Inverse(lib, sa.addr6))
    ensures BufferText(sa, lib) == Some(FullText(sa, lib)) && |FullText(sa, lib)| + 1 <= BUFFER_SIZE
  {
    DecimalLength(Swap16(sa.port), 5);
    if sa.In? { Pton4OfNtop4(sa.addr); }
    var host := if sa.In? then Ntop4(sa.addr) else lib.ntop(sa.addr6);
    assert host + ([':'] + Decimal(Swap16(sa.port))) == host + [':'] + Decimal(Swap16(sa.port));
  }

  /** The last colon is always the one in front of the port, whatever colons the address has. */
  lemma PortColonIsLast(host: string, port: nat)
    ensures LastColon(host + [':'] + Decimal(port)) == |host|
  {
    hide LastColon;
    LastColonOf(host, Decimal(port));
  }

  lemma {:induction false} LastColonOf(host: string, tail: string)
    requires ':' !in tail
    ensures LastColon(host + [':'] + tail) == |host|
    decreases |tail|
  {
    var s := host + [':'] + tail;
    if tail != [] {
      var front := tail[..|tail| - 1];
      assert s[|s| - 1] == tail[|tail| - 1] && tail[|tail| - 1] in tail;
      assert s[..|s| - 1] == host + [':'] + front;
      LastColonOf(host, front);
    }
  }

  lemma TakeApartText(host: string, port: nat)
    requires |host| < INET6_ADDRSTRLEN
    ensures TakeApart(host + [':'] + Decimal(port)) == Some((host, port))
  {
    PortColonIsLast(host, port);
    var s := host + [':'] + Decimal(port);
    assert s[..|host|] == host && s[|host| + 1..] == Decimal(port);
    AtoiOfDecimal(port);
  }

  /**
    Printing then parsing returns the address: every IPv4 address and port, and every IPv6
    address the C library reads back, with flow information and scope set to zero.
    */
  lemma PrintThenParse(sa: SockAddr, lib: Inet6, length: int)
    requires ValidAddr(sa) && !sa.Other? && (sa.In6? ==> Inverse(lib, sa.addr6))
    requires length >= if sa.In? then SIZEOF_SOCKADDR_IN else SIZEOF_SOCKADDR_IN6
    ensures BufferText(sa, lib).Some?
    ensures Parse(BufferText(sa, lib).value, if sa.In? then AF_INET else AF_INET6, length, lib)
         == Parsed(Answer(0, 0), if sa.In? then SIZEOF_SOCKADDR_IN else SIZEOF_SOCKADDR_IN6,
                   Some(if sa.In? then sa else sa.(flowinfo := 0, scope := 0)))
  {
    TextFits(sa, lib);
    if sa.In? { Pton4OfNtop4(sa.addr); }
    ParseOfText(if sa.In? then Ntop4(sa.addr) else lib.ntop(sa.addr6), sa.port, if sa.In? then AF_INET else AF_INET6, length, lib);
  }

  /** A short enough host text with a printed port comes back as that host and port. */
  lemma ParseOfText(host: string, port: nat, family: int, length: int, lib: Inet6)
    requires |host| < INET6_ADDRSTRLEN && port < 0x1_0000 && (family == AF_INET || family == AF_INET6)
    requires length >= if family == AF_INET then SIZEOF_SOCKADDR_IN else SIZEOF_SOCKADDR_IN6
    requires if family == AF_INET then Pton4(host).Some? else lib.pton(host).Some?
    ensures Parse(host + [':'] + Decimal(Swap16(port)), family, length, lib) ==
      if family == AF_INET then Parsed(Answer(0, 0), SIZEOF_SOCKADDR_IN, Some(In(port, Pton4(host).value)))
      else Parsed(Answer(0, 0), SIZEOF_SOCKADDR_IN6, Some(In6(port, 0, lib.pton(host).value, 0)))
  {
    hide TakeApart, Pton4, Decimal, Swap16;
    TakeApartText(host, Swap16(port));
    SwapTwice(port);
    assert Swap16(port) % 0x1_0000 == Swap16(port);
  }

  /** The port of a printed host and port lies in memory high byte first. */
  lemma ParsedPortBytes(host: string, n: nat, family: int, length: int, lib: Inet6)
    requires |host| < INET6_ADDRSTRLEN && n < 0x1_0000 && (family == AF_INET || family == AF_INET6)
    requires length >= if family == AF_INET then SIZEOF_SOCKADDR_IN else SIZEOF_SOCKADDR_IN6
    requires if family == AF_INET then Pton4(host).Some? else lib.pton(host).Some?
    ensures var p := Parse(host + [':'] + Decimal(n), family, length, lib);
      && p.answer == Answer(0, 0) && p.stored.Some? && !p.stored.value.Other? && p.stored.value.port < 0x1_0000
      && InMemory(p.stored.value.port)[0] == n / 256 && InMemory(p.stored.value.port)[1] == n % 256
  {
    hide TakeApart, Pton4, Decimal, Swap16;
    TakeApartText(host, n);
    NetworkOrder(n);
  }

  /** The printed port is the number whose high byte lies first in memory. */
  lemma PrintedPort(sa: SockAddr, lib: Inet6)
    requires ValidAddr(sa) && !sa.Other? && (sa.In6? ==> Inverse(lib, sa.addr6))
    ensures BufferText(sa, lib) == Some((if sa.In? then Ntop4(sa.addr) else lib.ntop(sa.addr6)) + [':'] + Decimal(BigEndian(InMemory(sa.port))))
  {
    hide Ntop4, Decimal, Swap16, BufferText;
    TextFits(sa, lib);
    NetworkOrder(sa.port);
  }

  /**
    What an IPv4 parse accepts, for every text: the part before the last colon, or the first
    45 characters when there is none, must be a printed address; that address is stored.
    */
  lemma ParseAcceptsExactly(s: string, length: int, lib: Inet6, a: seq<Byte>)
    requires |a| == 4 && length >= SIZEOF_SOCKADDR_IN
    ensures var p := Parse(s, AF_INET, length, lib);
      p.answer == Answer(0, 0) && p.stored.Some? && p.stored.value.In? && p.stored.value.addr == a
      <==> TakeApart(s).Some? && TakeApart(s).value.0 == Ntop4(a)
  {
    hide TakeApart, Pton4, Ntop4, Swap16;
    if TakeApart(s).Some? { Pton4Exact(TakeApart(s).value.0, a); }
  }

  /** A text with a colon never reaches inet_pton whole: it is cut at the last one. */
  lemma BareColonTextIsCut(s: string)
    requires ':' in s
    ensures TakeApart(s) == None || (|TakeApart(s).value.0| < |s| && TakeApart(s).value.0 + [':'] <= s)
  {
    var i := LastColon(s);
    var j :| 0 <= j < |s| && s[j] == ':';
    assert i >= j;
    assert s[..i] + [':'] == s[..i + 1];
  }

  /** An address text without a port is taken as one exactly when it has no colon and at most 45 characters. */
  lemma WholeTextIff(s: string)
    ensures TakeApart(s) == Some((s, 0)) <==> ':' !in s && |s| < INET6_ADDRSTRLEN
  {
    if ':' in s { BareColonTextIsCut(s); }
  }

  /**
    An IPv6 text meant without a port, whose last group is a decimal number and whose rest
    inet_pton also reads: the call reports success, with the rest as the address and the last
    group as the port, whatever address the whole text means.
    */
  lemma LastGroupBecomesPort(host: string, n: nat, length: int, lib: Inet6)
    requires |host| < INET6_ADDRSTRLEN && lib.pton(host).Some? && length >= SIZEOF_SOCKADDR_IN6
    ensures Parse(host + [':'] + Decimal(n), AF_INET6, length, lib) ==
      Parsed(Answer(0, 0), SIZEOF_SOCKADDR_IN6, Some(In6(Swap16(n % 0x1_0000), 0, lib.pton(host).value, 0)))
  {
    hide TakeApart, Decimal, Swap16;
    TakeApartText(host, n);
  }

  /** For instance: the address 1::2:3 is stored as 1::2 with port 3, and success reported. */
  lemma PortlessTextIsMisread(lib: Inet6, meant: seq<Byte>)
    requires lib.pton("1::2:3") == Some(meant) && lib.pton("1::2").Some? && lib.pton("1::2").value != meant
    ensures var p := Parse("1::2:3", AF_INET6, SIZEOF_SOCKADDR_IN6, lib);
      && p.answer == Answer(0, 0)
      && p.stored == Some(In6(Swap16(3), 0, lib.pton("1::2").value, 0))
      && p.stored.value.addr6 != meant
  {
    assert Decimal(3) == "3" && "1::2" + [':'] + "3" == "1::2:3";
    LastGroupBecomesPort("1::2", 3, SIZEOF_SOCKADDR_IN6, lib);
  }

  /**
    Every IPv6 text with a colon: the call succeeds exactly when inet_pton reads the part before
    the last one, and then stores it with whatever number the rest starts with as the port.
    */
  lemma ColonTextParses(host: string, tail: string, length: int, lib: Inet6)
    requires ':' !in tail && length >= SIZEOF_SOCKADDR_IN6
    ensures var p := Parse(host + [':'] + tail, AF_INET6, length, lib);
      && (p.answer == Answer(0, 0) <==> |host| < INET6_ADDRSTRLEN && lib.pton(host).Some?)
      && (p.answer == Answer(0, 0) ==> p.stored == Some(In6(Swap16(Atoi(tail) % 0x1_0000), 0, lib.pton(host).value, 0)))
  {
    hide LastColon, Atoi, Swap16;
    var s := host + [':'] + tail;
    LastColonOf(host, tail);
    assert s[..|host|] == host && s[|host| + 1..] == tail;
  }

  /** For instance: the mapped address ::ffff:1.2.3.4 is stored as ::ffff with port 1, and success reported. */
  lemma MappedTextIsMisread(lib: Inet6)
    requires lib.pton("::ffff").Some?
    ensures var p := Parse("::ffff:1.2.3.4", AF_INET6, SIZEOF_SOCKADDR_IN6, lib);
      p.answer == Answer(0, 0) && p.stored == Some(In6(Swap16(1), 0, lib.pton("::ffff").value, 0))
  {
    hide Parse, LastColon;
    var tail := "1.2.3.4";
    assert Atoi(tail) == 1 by {
      assert DigitRun(tail) == 1;
      assert tail[..1] == "1" && Value("1") == 1;
    }
    assert "::ffff" + [':'] + tail == "::ffff:1.2.3.4";
    ColonTextParses("::ffff", tail, SIZEOF_SOCKADDR_IN6, lib);
  }

  lemma NoColonInQuad(a: seq<Byte>)
    requires |a| == 4
    ensures ':' !in Ntop4(a)
  {
    var p, q, r, s := Decimal(a[0]), Decimal(a[1]), Decimal(a[2]), Decimal(a[3]);
    JoinOfFour(p, q, r, s);
    assert ':' !in p && ':' !in q && ':' !in r && ':' !in s;
    assert ':' !in p + ['.'] + (q + ['.'] + (r + ['.'] + s));
  }

  /** IPv4 is different: every address text inet_pton reads is stored, without a port meaning port zero. */
  lemma PlainQuadParses(s: string, length: int, lib: Inet6)
    requires Pton4(s).Some? && length >= SIZEOF_SOCKADDR_IN
    ensures Parse(s, AF_INET, length, lib) == Parsed(Answer(0, 0), SIZEOF_SOCKADDR_IN, Some(In(0, Pton4(s).value)))
  {
    var a := Pton4(s).value;
    assert |a| == 4;
    hide Pton4, Ntop4, TakeApart;
    Pton4Exact(s, a);
    Pton4OfNtop4(a);
    NoColonInQuad(a);
    WholeTextIff(s);
  }

  /** strcpy: the characters and the terminator, and nothing beyond. */
  method Strcpy(dst: array<char>, text: string)
    requires |text| < dst.Length
    modifies dst
    ensures dst[..|text| + 1] == text + ['\0'] && dst[|text| + 1..] == old(dst[|text| + 1..])
  {
    var i := 0;
    while i < |text|
      invariant i <= |text|
      invariant forall j | 0 <= j < i :: dst[j] == text[j]
      invariant forall j | i <= j < dst.Length :: dst[j] == old(dst[j])
    {
      dst[i] := text[i];
      i := i + 1;
    }
    dst[i] := '\0';
    assert dst[..|text| + 1] == text + ['\0'];
  }

  /** WSAAddressToStringA: length is the in-out length parameter, None for a NULL pointer. */
  method AddressToString(sa: Option<SockAddr>, out: array?<char>, length: Option<nat>, lib: Inet6)
    returns (answer: Answer, newLength: Option<nat>)
    requires sa.Some? ==> ValidAddr(sa.value) && (sa.value.In6? ==> Inverse(lib, sa.value.addr6))
    requires out != null && length.Some? ==> length.value <= out.Length
    modifies out
    ensures sa == None || out == null || length == None ==> answer == Answer(SOCKET_ERROR, WSAEFAULT) && newLength == length
    ensures sa.Some? && out != null && length.Some? && sa.value.Other? ==>
              answer == Answer(SOCKET_ERROR, WSAEAFNOSUPPORT) && newLength == length
    ensures sa.Some? && out != null && length.Some? && !sa.value.Other? ==>
              && newLength == Some(|FullText(sa.value, lib)| + 1)
              && (answer == if length.value < newLength.value then Answer(SOCKET_ERROR, WSAEFAULT) else Answer(0, 0))
    ensures answer.value != 0 && out != null ==> out[..] == old(out[..])
    ensures answer.value == 0 ==>
              && sa.Some? && out != null && !sa.value.Other?
              && out[..] == FullText(sa.value, lib) + ['\0'] + old(out[..])[|FullText(sa.value, lib)| + 1..]
  {
    hide Ntop4, Decimal, Swap16, BufferText;
    newLength := length;
    if sa == None || out == null || length == None { return Answer(SOCKET_ERROR, WSAEFAULT), length; }
    if sa.value.Other? { return Answer(SOCKET_ERROR, WSAEAFNOSUPPORT), length; }
    TextFits(sa.value, lib);
    var text := BufferText(sa.value, lib);
    if text == None { return Answer(SOCKET_ERROR, WSAEFAULT), length; }
    newLength := Some(|text.value| + 1);
    if length.value < |text.value| + 1 { return Answer(SOCKET_ERROR, WSAEFAULT), newLength; }
    Strcpy(out, text.value);
    assert out[..] == out[..|text.value| + 1] + out[|text.value| + 1..];
    return Answer(0, 0), newLength;
  }

  /** The caller's memory for a socket address. */
  class AddressCell {
    var content: SockAddr

    constructor (content: SockAddr)
      ensures this.content == content
    {
      this.content := content;
    }
  }

  /** WSAStringToAddressA: split at the last colon, clear the structure, store the port, then the address. */
  method StringToAddress(text: Option<string>, family: int, out: AddressCell?, length: Option<int>, lib: Inet6)
    returns (answer: Answer, newLength: Option<int>)
    modifies out
    ensures text == None || out == null || length == None ==>
              answer == Answer(SOCKET_ERROR, WSAEFAULT) && newLength == length
              && (out != null ==> out.content == old(out.content))
    ensures text.Some? && out != null && length.Some? ==>
              var p := Parse(text.value, family, length.value, lib);
              && answer == p.answer
              && newLength == Some(p.length)
              && out.content == (if p.stored.Some? then p.stored.value else old(out.content))
    ensures text.Some? && out != null && length.Some? ==>
      var good := LastColon(text.value) < INET6_ADDRSTRLEN;
      && (!good ==> answer == Answer(SOCKET_ERROR, WSAEINVAL) && newLength == length && out.content == old(out.content))
      && (good && family != AF_INET && family != AF_INET6 ==>
            answer == Answer(SOCKET_ERROR, WSAEAFNOSUPPORT) && newLength == length && out.content == old(out.content))
      && (good && family == AF_INET ==> newLength == Some(16))
      && (good && family == AF_INET6 ==> newLength == Some(28))
      && (good && ((family == AF_INET && length.value < 16) || (family == AF_INET6 && length.value < 28)) ==>
            answer == Answer(SOCKET_ERROR, WSAEFAULT) && out.content == old(out.content))
      && (good && family == AF_INET && length.value >= 16 ==>
            && out.content.In?
            && (answer != Answer(0, 0) ==> answer == Answer(SOCKET_ERROR, WSAEINVAL) && out.content.addr == [0, 0, 0, 0]))
      && (good && family == AF_INET6 && length.value >= 28 ==>
            && out.content.In6? && out.content.flowinfo == out.content.scope == 0
            && (answer != Answer(0, 0) ==>
                  && answer == Answer(SOCKET_ERROR, WSAEINVAL) && |out.content.addr6| == 16
                  && forall i | 0 <= i < 16 :: out.content.addr6[i] == 0))
  {
    hide LastColon, Atoi, Pton4, Swap16;
    newLength := length;
    if text == None || out == null || length == None { return Answer(SOCKET_ERROR, WSAEFAULT), length; }
    var s := text.value;
    var colon := LastColon(s);
    var host, port := if |s| < INET6_ADDRSTRLEN then s else s[..INET6_ADDRSTRLEN - 1], 0;
    if colon >= 0 {
      if colon >= INET6_ADDRSTRLEN { return Answer(SOCKET_ERROR, WSAEINVAL), length; }
      host, port := s[..colon], Atoi(s[colon + 1..]);
    }
    var found := false;
    if family == AF_INET {
      newLength := Some(SIZEOF_SOCKADDR_IN);
      if length.value < SIZEOF_SOCKADDR_IN { return Answer(SOCKET_ERROR, WSAEFAULT), newLength; }
      var netPort := Swap16(port % 0x1_0000);
      out.content := In(netPort, Zeros(4));
      var a := Pton4(host);
      found := a.Some?;
      if found { out.content := In(netPort, a.value); }
    } else if family == AF_INET6 {
      newLength := Some(SIZEOF_SOCKADDR_IN6);
      if length.value < SIZEOF_SOCKADDR_IN6 { return Answer(SOCKET_ERROR, WSAEFAULT), newLength; }
      var netPort := Swap16(port % 0x1_0000);
      out.content := In6(netPort, 0, Zeros(16), 0);
      var a := lib.pton(host);
      found := a.Some?;
      if found { out.content := In6(netPort, 0, a.value, 0); }
    } else {
      return Answer(SOCKET_ERROR, WSAEAFNOSUPPORT), length;
    }
    answer := if found then Answer(0, 0) else Answer(SOCKET_ERROR, WSAEINVAL);
  }
}
