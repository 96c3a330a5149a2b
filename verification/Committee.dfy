/** Committee thresholds, and the addresses the committee file is written with and read back from. */
module Committee {
  import opened Types

  function QuorumThreshold(n: nat): nat {
    n * 2 / 3 + 1
  }

  function ValidityThreshold(n: nat): nat {
    n / 2 + 1
  }

  /** The largest number of faulty authorities that `n >= 3 f + 1` allows. */
  function MaxFaulty(n: nat): (f: nat)
    requires n >= 1
    ensures n >= 3 * f + 1 && n < 3 * (f + 1) + 1
  {
    (n - 1) / 3
  }

  lemma UnionSize<T>(a: set<T>, b: set<T>)
    ensures |a + b| == |a| + |b| - |a * b|
  {
    assert a + b == a + (b - a);
    assert b == (b - a) + (a * b);
  }

  /** Two quorums share an honest authority, and a quorum is reachable without the faulty ones. */
  lemma QuorumsIntersect<T>(committee: set<T>, a: set<T>, b: set<T>)
    requires committee != {} && a <= committee && b <= committee
    requires |a| >= QuorumThreshold(|committee|) && |b| >= QuorumThreshold(|committee|)
    ensures |a * b| >= MaxFaulty(|committee|) + 1
    ensures QuorumThreshold(|committee|) <= |committee| - MaxFaulty(|committee|)
    ensures ValidityThreshold(|committee|) >= MaxFaulty(|committee|) + 1
  {
    UnionSize(a, b);
    SubsetSize(a + b, committee);
  }

  lemma {:induction false} SubsetOfSize<T>(c: set<T>, k: nat) returns (s: set<T>)
    requires k <= |c|
    ensures s <= c && |s| == k
  {
    if k == 0 {
      s := {};
    } else {
      var x :| x in c;
      s := SubsetOfSize(c - {x}, k - 1);
      s := s + {x};
    }
  }

  /** Two sets of `q` authorities share at most `f` of them. */
  ghost predicate MaySplit<T(!new)>(committee: set<T>, q: nat, f: nat) {
    exists a, b :: a <= committee && b <= committee && |a| == |b| == q && |a * b| <= f
  }

  lemma SplitSets<T>(committee: set<T>, q: nat) returns (a: set<T>, b: set<T>)
    requires q <= |committee|
    ensures a <= committee && b <= committee && |a| == |b| == q
    ensures |a * b| == if 2 * q >= |committee| then 2 * q - |committee| else 0
  {
    a := SubsetOfSize(committee, q);
    var rest := committee - a;
    assert committee == a + rest && a !! rest;
    if 2 * q >= |committee| {
      var shared := SubsetOfSize(a, 2 * q - |committee|);
      b := rest + shared;
      assert a * b == shared;
    } else {
      b := SubsetOfSize(rest, q);
      assert a * b == {};
    }
  }

  /**
   The threshold is the least one: with one vote less two quorums may share no honest
   authority, unless the size of the committee is a multiple of 3.
   */
  lemma ThresholdIsLeast<T(!new)>(committee: set<T>)
    requires committee != {}
    ensures var n := |committee|; MaySplit(committee, QuorumThreshold(n) - 1, MaxFaulty(n)) <==> n % 3 != 0
  {
    hide QuorumThreshold, MaxFaulty;
    var n := |committee|;
    OneVoteLess(n);
    var q, f := QuorumThreshold(n) - 1, MaxFaulty(n);
    if MaySplit(committee, q, f) {
      var a, b :| a <= committee && b <= committee && |a| == |b| == q && |a * b| <= f;
      UnionSize(a, b);
      SubsetSize(a + b, committee);
    } else {
      var a, b := SplitSets(committee, q);
      assert |a * b| > f;
    }
  }

  lemma OneVoteLess(n: nat)
    requires n >= 1
    ensures var q := QuorumThreshold(n) - 1; 0 <= q <= n && (2 * q - n <= MaxFaulty(n) <==> n % 3 != 0)
  {
    var d := n / 3;
    assert n == 3 * d || n == 3 * d + 1 || n == 3 * d + 2;
  }

  /** A set of authorities is valid exactly when it outnumbers the others. */
  lemma ValidityExactly<T>(committee: set<T>, a: set<T>)
    requires a <= committee
    ensures |a| >= ValidityThreshold(|committee|) <==> |a| > |committee - a|
  {
    assert committee == a + (committee - a);
  }

  // ----- addresses -----

  /** The pieces of `s` between occurrences of `c`. */
  function Split(s: string, c: char): (parts: seq<string>)
    ensures parts != []
    ensures forall p :: p in parts ==> c !in p
  {
    if s == "" then [""]
    else
      var rest := Split(s[1..], c);
      if s[0] == c then [""] + rest else [[s[0]] + rest[0]] + rest[1..]
  }

  predicate IsDigit(c: char) {
    '0' <= c <= '9'
  }

  function DigitOf(c: char): nat
    requires IsDigit(c)
  {
    (c - '0') as nat
  }

  /** The value of a string of digits. */
  function Value(s: string): nat
    requires forall c :: c in s ==> IsDigit(c)
  {
    if s == "" then 0 else
      assert forall c :: c in s[..|s| - 1] ==> c in s;
      10 * Value(s[..|s| - 1]) + DigitOf(s[|s| - 1])
  }

  /** Parsing an unsigned integer below `bound`: an optional plus sign and at least one digit. */
  predicate ParsesBelow(s: string, bound: nat) {
    var digits := if s != "" && s[0] == '+' then s[1..] else s;
    digits != "" && (forall c :: c in digits ==> IsDigit(c)) && Value(digits) < bound
  }

  predicate IsValidIp(ip: string) {
    var parts := Split(ip, '.');
    |parts| == 4 && forall p :: p in parts ==> ParsesBelow(p, 256)
  }

  predicate IsValidPort(port: string) {
    ParsesBelow(port, 65536)
  }

  /** Reads the ip and the port out of an address. */
  function ParseIpPort(address: string): Option<string> {
    var parts := Split(address, '/');
    if |parts| >= 5 && parts[1] == "ip4" && parts[3] == "udp" && IsValidIp(parts[2]) && IsValidPort(parts[4])
    then Some(parts[2] + ":" + parts[4])
    else None
  }

  function Digit(d: nat): char
    requires d < 10
  {
    '0' + d as char
  }

  function Decimal(n: nat): string {
    if n < 10 then [Digit(n)] else Decimal(n / 10) + [Digit(n % 10)]
  }

  function FormatAddress(ip: string, port: nat): string {
    "/ip4/" + ip + "/udp/" + Decimal(port)
  }

  lemma {:induction false} DecimalValue(n: nat)
    ensures Decimal(n) != "" && (forall c :: c in Decimal(n) ==> IsDigit(c)) && Value(Decimal(n)) == n
  {
    if n < 10 {
    } else {
      DecimalValue(n / 10);
      assert Decimal(n)[..|Decimal(n)| - 1] == Decimal(n / 10);
    }
  }

  /** Splitting `a`, a separator and `b` gives the pieces of `a` followed by those of `b`. */
  lemma {:induction false} SplitAppend(a: string, c: char, b: string)
    requires c !in a
    ensures Split(a + [c] + b, c) == [a] + Split(b, c)
  {
    if a == "" {
      assert ("" + [c] + b)[1..] == b;
    } else {
      SplitAppend(a[1..], c, b);
      assert (a + [c] + b)[1..] == a[1..] + [c] + b;
      assert [a[0]] + a[1..] == a;
    }
  }

  lemma {:induction false} SplitWhole(a: string, c: char)
    requires c !in a
    ensures Split(a, c) == [a]
  {
    if a == "" {
    } else {
      SplitWhole(a[1..], c);
      assert [a[0]] + a[1..] == a;
    }
  }

  lemma {:induction false} SplitPieces(s: string, c: char, d: char)
    ensures d in s ==> d == c || exists p :: p in Split(s, c) && d in p
  {
    if s != "" && d in s && d != c {
      var rest := Split(s[1..], c);
      if s[0] == c || d != s[0] {
        SplitPieces(s[1..], c, d);
      }
      if s[0] != c {
        var p := [s[0]] + rest[0];
        assert p in Split(s, c);
        assert forall q :: q in rest[1..] ==> q in Split(s, c);
        assert rest == [rest[0]] + rest[1..];
      }
    }
  }

  lemma ParsedHasNoSlash(s: string, bound: nat)
    requires ParsesBelow(s, bound)
    ensures '/' !in s
  {
    assert !IsDigit('/');
    if s[0] == '+' {
      assert '/' !in s[1..];
      assert s == ['+'] + s[1..];
    } else {
      assert forall i :: 0 <= i < |s| ==> s[i] in s;
    }
  }

  /** A valid ip is made of digits, plus signs and dots, so it holds no slash. */
  lemma ValidIpHasNoSlash(ip: string)
    requires IsValidIp(ip)
    ensures '/' !in ip
  {
    SplitPieces(ip, '.', '/');
    forall p | p in Split(ip, '.')
      ensures '/' !in p
    {
      ParsedHasNoSlash(p, 256);
    }
  }

  /** Reading back a written address gives the ip and the port it was written with. */
  lemma AddressRoundTrip(ip: string, port: nat)
    requires IsValidIp(ip) && port < 65536
    ensures ParseIpPort(FormatAddress(ip, port)) == Some(ip + ":" + Decimal(port))
  {
    ValidIpHasNoSlash(ip);
    DecimalValue(port);
    var digits := Decimal(port);
    assert '/' !in digits;
    var tail3 := "udp" + ['/'] + digits;
    var tail2 := ip + ['/'] + tail3;
    var tail1 := "ip4" + ['/'] + tail2;
    assert FormatAddress(ip, port) == "" + ['/'] + tail1;
    SplitAppend("", '/', tail1);
    SplitAppend("ip4", '/', tail2);
    SplitAppend(ip, '/', tail3);
    SplitAppend("udp", '/', digits);
    SplitWhole(digits, '/');
    assert Split(FormatAddress(ip, port), '/') == ["", "ip4", ip, "udp", digits];
    assert digits[0] in digits;
    assert IsValidPort(digits);
  }

  // ----- which addresses are read -----

  function Join(parts: seq<string>, c: char): string
    requires parts != []
  {
    if |parts| == 1 then parts[0] else parts[0] + [c] + Join(parts[1..], c)
  }

  /** Joining the pieces gives back what was split. */
  lemma {:induction false} SplitJoins(s: string, c: char)
    ensures Join(Split(s, c), c) == s
  {
    if s == "" {
    } else {
      SplitJoins(s[1..], c);
      var rest := Split(s[1..], c);
      assert s == [s[0]] + s[1..];
      if s[0] == c {
        assert ([""] + rest)[1..] == rest;
      } else {
        assert ([[s[0]] + rest[0]] + rest[1..])[1..] == rest[1..];
      }
    }
  }

  /** `a` is what stands before the first separator of `s`, or all of `s`, and `tail` is what follows. */
  lemma SplitFront(a: string, c: char, tail: string)
    requires c !in a && (tail == "" || tail[0] == c)
    ensures Split(a + tail, c) == [a] + if tail == "" then [] else Split(tail[1..], c)
  {
    if tail == "" {
      assert a + tail == a;
      SplitWhole(a, c);
    } else {
      assert a + tail == a + [c] + tail[1..];
      SplitAppend(a, c, tail[1..]);
    }
  }

  function Zeros(n: nat): string {
    seq(n, i => '0')
  }

  /** `s` is the number `n` in decimal, possibly with leading zeros and a plus sign. */
  ghost predicate Writes(s: string, n: nat) {
    exists z: nat :: s == Zeros(z) + Decimal(n) || s == "+" + Zeros(z) + Decimal(n)
  }

  lemma {:induction false} ZerosValue(z: nat, digits: string)
    requires digits != "" && forall c :: c in digits ==> IsDigit(c)
    ensures forall c :: c in Zeros(z) + digits ==> IsDigit(c)
    ensures Value(Zeros(z) + digits) == Value(digits)
    decreases |digits|
  {
    var all, init := Zeros(z) + digits, digits[..|digits| - 1];
    assert all[..|all| - 1] == Zeros(z) + init && all[|all| - 1] == digits[|digits| - 1];
    assert forall c :: c in init ==> c in digits;
    if init == "" {
      OnlyZeros(z);
      assert Zeros(z) + init == Zeros(z);
    } else {
      ZerosValue(z, init);
    }
  }

  lemma {:induction false} OnlyZeros(z: nat)
    ensures (forall c :: c in Zeros(z) ==> IsDigit(c)) && Value(Zeros(z)) == 0
  {
    if z > 0 {
      OnlyZeros(z - 1);
      assert Zeros(z)[..z - 1] == Zeros(z - 1);
    }
  }

  /** A string of digits is the decimal of its value behind some zeros. */
  lemma {:induction false} DigitsWrite(s: string) returns (z: nat)
    requires s != "" && forall c :: c in s ==> IsDigit(c)
    ensures s == Zeros(z) + Decimal(Value(s))
    decreases |s|
  {
    hide Value, Decimal, Zeros, DigitOf;
    var init, last := s[..|s| - 1], s[|s| - 1];
    assert s == init + [last];
    assert forall c :: c in init ==> c in s;
    assert last in s;
    LastDigit(init, last);
    if init == "" {
      z := 0;
      OneMoreZero(0);
      assert Value(init) == 0 by { NoDigits(); }
      assert s == "" + ("" + [last]);
    } else {
      z := DigitsWrite(init);
      OneMoreZero(z);
      if Value(init) == 0 {
        assert s == Zeros(z) + "0" + [last];
        z := z + 1;
      } else {
        assert s == Zeros(z) + (Decimal(Value(init)) + [last]);
      }
    }
  }

  lemma NoDigits()
    ensures Value("") == 0
  {
  }

  lemma OneMoreZero(z: nat)
    ensures Zeros(0) == "" && Zeros(z + 1) == Zeros(z) + "0" && Decimal(0) == "0"
  {
  }

  lemma LastDigit(init: string, last: char)
    requires IsDigit(last) && forall c :: c in init ==> IsDigit(c)
    ensures forall c :: c in init + [last] ==> IsDigit(c)
    ensures var n := Value(init + [last]);
            n == 10 * Value(init) + DigitOf(last) &&
            Decimal(n) == (if Value(init) == 0 then "" else Decimal(Value(init))) + [last]
  {
    assert (init + [last])[..|init + [last]| - 1] == init;
    var n := Value(init + [last]);
    assert n / 10 == Value(init) && n % 10 == DigitOf(last);
    assert Digit(DigitOf(last)) == last;
  }

  lemma WrittenParses(s: string, n: nat)
    requires Writes(s, n)
    ensures ParsesBelow(s, n + 1) && !ParsesBelow(s, n)
  {
    hide Value, Decimal, Zeros;
    var z: nat :| s == Zeros(z) + Decimal(n) || s == "+" + Zeros(z) + Decimal(n);
    DecimalValue(n);
    ZerosValue(z, Decimal(n));
    var digits := Zeros(z) + Decimal(n);
    assert s == digits || s == "+" + digits;
    assert digits[0] in digits && !IsDigit('+');
    assert ("+" + digits)[1..] == digits;
  }

  /** What parses below a bound: the decimals of the numbers below it, with leading zeros and a plus sign if need be. */
  lemma ParsesExactly(s: string, bound: nat)
    ensures ParsesBelow(s, bound) <==> exists n: nat :: n < bound && Writes(s, n)
  {
    hide Value, Decimal, Zeros;
    if ParsesBelow(s, bound) {
      var digits := if s[0] == '+' then s[1..] else s;
      var z := DigitsWrite(digits);
      assert s[0] == '+' ==> s == "+" + digits;
      assert "+" + (Zeros(z) + Decimal(Value(digits))) == "+" + Zeros(z) + Decimal(Value(digits));
      assert Writes(s, Value(digits));
    }
    forall n: nat | n < bound && Writes(s, n)
      ensures ParsesBelow(s, bound)
    {
      WrittenParses(s, n);
    }
  }

  /** Four numbers below 256 between dots. */
  ghost predicate Octets(ip: string) {
    exists a, b, c, d ::
      && ip == a + "." + b + "." + c + "." + d
      && ParsesBelow(a, 256) && ParsesBelow(b, 256) && ParsesBelow(c, 256) && ParsesBelow(d, 256)
  }

  lemma JoinFour(parts: seq<string>, c: char)
    requires |parts| == 4
    ensures Join(parts, c) == parts[0] + [c] + parts[1] + [c] + parts[2] + [c] + parts[3]
  {
    assert parts[1..][1..] == parts[2..] && parts[2..][1..] == parts[3..];
    assert Join(parts[2..], c) == parts[2] + [c] + parts[3];
    assert Join(parts[1..], c) == parts[1] + [c] + Join(parts[2..], c);
  }

  lemma ParsedHasNoDot(s: string, bound: nat)
    requires ParsesBelow(s, bound)
    ensures '.' !in s
  {
    assert !IsDigit('.');
    if s[0] == '+' {
      assert s == ['+'] + s[1..];
    }
  }

  lemma OctetsSplit(a: string, b: string, c: string, d: string)
    requires ParsesBelow(a, 256) && ParsesBelow(b, 256) && ParsesBelow(c, 256) && ParsesBelow(d, 256)
    ensures Split(a + "." + b + "." + c + "." + d, '.') == [a, b, c, d]
  {
    hide ParsesBelow, Split;
    ParsedHasNoDot(a, 256);
    ParsedHasNoDot(b, 256);
    ParsedHasNoDot(c, 256);
    ParsedHasNoDot(d, 256);
    var t3 := c + ['.'] + d;
    var t2 := b + ['.'] + t3;
    SplitWhole(d, '.');
    SplitAppend(c, '.', d);
    SplitAppend(b, '.', t3);
    SplitAppend(a, '.', t2);
    assert a + "." + b + "." + c + "." + d == a + ['.'] + t2;
  }

  lemma ValidIpOctets(ip: string)
    requires IsValidIp(ip)
    ensures Octets(ip)
  {
    hide ParsesBelow, Split, Join;
    var parts := Split(ip, '.');
    SplitJoins(ip, '.');
    JoinFour(parts, '.');
    assert ip == parts[0] + "." + parts[1] + "." + parts[2] + "." + parts[3];
    assert forall i :: 0 <= i < 4 ==> parts[i] in parts;
  }

  lemma OctetsValid(ip: string)
    requires Octets(ip)
    ensures IsValidIp(ip)
  {
    hide ParsesBelow, Split;
    var a, b, c, d :|
      ip == a + "." + b + "." + c + "." + d &&
      ParsesBelow(a, 256) && ParsesBelow(b, 256) && ParsesBelow(c, 256) && ParsesBelow(d, 256);
    OctetsSplit(a, b, c, d);
  }

  /** A valid ip is four numbers below 256 between dots. */
  lemma ValidIpExactly(ip: string)
    ensures IsValidIp(ip) <==> Octets(ip)
  {
    hide IsValidIp, Octets;
    if IsValidIp(ip) {
      ValidIpOctets(ip);
    }
    if Octets(ip) {
      OctetsValid(ip);
    }
  }

  /** `address` is a piece before the first slash, `/ip4/`, an ip, `/udp/`, a port and more pieces. */
  ghost predicate Reads(address: string, head: string, ip: string, port: string, tail: string) {
    && address == head + "/ip4/" + ip + "/udp/" + port + tail
    && '/' !in head && IsValidIp(ip) && IsValidPort(port)
    && (tail == "" || tail[0] == '/')
  }

  lemma JoinFive(parts: seq<string>, c: char) returns (tail: string)
    requires |parts| >= 5
    ensures Join(parts, c) == parts[0] + [c] + parts[1] + [c] + parts[2] + [c] + parts[3] + [c] + parts[4] + tail
    ensures tail == "" || tail[0] == c
  {
    tail := if |parts| == 5 then "" else [c] + Join(parts[5..], c);
    assert parts[4..][1..] == parts[5..];
    assert Join(parts[4..], c) == parts[4] + tail;
    JoinFour(parts[..3] + [Join(parts[3..], c)], c);
    assert parts[1..][1..] == parts[2..] && parts[2..][1..] == parts[3..] && parts[3..][1..] == parts[4..];
    assert Join(parts[3..], c) == parts[3] + [c] + Join(parts[4..], c);
    assert Join(parts[2..], c) == parts[2] + [c] + Join(parts[3..], c);
    assert Join(parts[1..], c) == parts[1] + [c] + Join(parts[2..], c);
  }

  lemma SplitRead(address: string, head: string, ip: string, port: string, tail: string)
    requires Reads(address, head, ip, port, tail)
    ensures ParseIpPort(address) == Some(ip + ":" + port)
  {
    hide Split, IsValidIp, ParsesBelow;
    ValidIpHasNoSlash(ip);
    ParsedHasNoSlash(port, 65536);
    var t4 := port + tail;
    var t3 := "udp" + ['/'] + t4;
    var t2 := ip + ['/'] + t3;
    var t1 := "ip4" + ['/'] + t2;
    assert address == head + ['/'] + t1;
    SplitAppend(head, '/', t1);
    SplitAppend("ip4", '/', t2);
    SplitAppend(ip, '/', t3);
    SplitAppend("udp", '/', t4);
    SplitFront(port, '/', tail);
    var parts := Split(address, '/');
    assert parts == [head] + ([ "ip4"] + ([ip] + (["udp"] + Split(t4, '/'))));
    assert parts[4] == port;
  }

  /** An address is read exactly when it has this form, and then to its ip and port. */
  lemma ParseExactly(address: string)
    ensures ParseIpPort(address).Some? <==> exists head, ip, port, tail :: Reads(address, head, ip, port, tail)
    ensures forall head, ip, port, tail ::
              Reads(address, head, ip, port, tail) ==> ParseIpPort(address) == Some(ip + ":" + port)
  {
    hide Reads, Split, IsValidIp, ParsesBelow, Join;
    if ParseIpPort(address).Some? {
      var parts := Split(address, '/');
      SplitJoins(address, '/');
      var tail := JoinFive(parts, '/');
      assert parts[0] in parts;
      assert Reads(address, parts[0], parts[2], parts[4], tail) by {
        assert address == parts[0] + "/ip4/" + parts[2] + "/udp/" + parts[4] + tail;
        FormOf(address, parts[0], parts[2], parts[4], tail);
      }
    }
    forall head, ip, port, tail | Reads(address, head, ip, port, tail)
      ensures ParseIpPort(address) == Some(ip + ":" + port)
    {
      SplitRead(address, head, ip, port, tail);
    }
  }

  lemma FormOf(address: string, head: string, ip: string, port: string, tail: string)
    requires address == head + "/ip4/" + ip + "/udp/" + port + tail
    requires '/' !in head && IsValidIp(ip) && IsValidPort(port) && (tail == "" || tail[0] == '/')
    ensures Reads(address, head, ip, port, tail)
  {
  }
}
