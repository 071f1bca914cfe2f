/** Addresses as Go's `net` package reads and writes them: what ParseIP accepts, and SplitHostPort and
    JoinHostPort. The client address of internal/middleware and internal/clientip rests on these. */
module NetAddr {
  import opened Basics

  // ---------- net.ParseIP ----------

  predicate IsHex(c: char) { IsDigit(c) || 'a' <= c <= 'f' || 'A' <= c <= 'F' }

  /** The dotted quad from position `i` on: `pos` dots and `digits` digits of a field worth `val` are
      behind it. */
  predicate Quad(s: string, i: nat, pos: nat, val: nat, digits: nat)
    requires i <= |s|
    decreases |s| - i
  {
    if i == |s| then pos == 3
    else if IsDigit(s[i]) then
      var val' := val * 10 + (s[i] as nat - '0' as nat);
      !(digits == 1 && val == 0) && val' <= 255 && Quad(s, i + 1, pos, val', digits + 1)
    else
      && s[i] == '.' && i != 0 && i != |s| - 1 && s[i - 1] != '.' && pos < 3
      && Quad(s, i + 1, pos + 1, 0, 0)
  }

  predicate IsIPv4(s: string) { Quad(s, 0, 0, 0, 0) }

  function HexRun(s: string): (n: nat)
    ensures n <= |s|
  {
    if s == "" || !IsHex(s[0]) then 0 else 1 + HexRun(s[1..])
  }

  /** Sixteen bytes are filled exactly, unless an ellipsis stands for the missing ones. */
  predicate Filled(bytes: nat, ellipsis: bool) {
    if bytes < 16 then ellipsis else !ellipsis
  }

  /** The rest of an IPv6 address, with `bytes` of it behind and possibly an ellipsis. */
  predicate Groups(s: string, bytes: nat, ellipsis: bool) {
    if bytes >= 16 then s == "" && !ellipsis
    else
      var n := HexRun(s);
      && 1 <= n <= 4
      && if n < |s| && s[n] == '.' then
           (ellipsis || bytes == 12) && bytes + 4 <= 16 && IsIPv4(s) && Filled(bytes + 4, ellipsis)
         else if n == |s| then Filled(bytes + 2, ellipsis)
         else
           && s[n] == ':' && n + 1 < |s|
           && if s[n + 1] == ':' then
                !ellipsis && if n + 2 == |s| then Filled(bytes + 2, true) else Groups(s[n + 2..], bytes + 2, true)
              else Groups(s[n + 1..], bytes + 2, ellipsis)
  }

  /** A zone, which ParseIP refuses, is the only use of a percent sign. */
  predicate IsIPv6(s: string) {
    && '%' !in s
    && if HasPrefix(s, "::") then s == "::" || Groups(s[2..], 0, true) else Groups(s, 0, false)
  }

  /** The first dot, colon or percent sign decides which kind of address is read. */
  predicate ParsesFrom(s: string, i: nat)
    requires i <= |s|
    decreases |s| - i
  {
    if i == |s| || s[i] == '%' then false
    else if s[i] == '.' then IsIPv4(s)
    else if s[i] == ':' then IsIPv6(s)
    else ParsesFrom(s, i + 1)
  }

  /** net.ParseIP(s) != nil */
  predicate IsIP(s: string) { ParsesFrom(s, 0) }

  // ---------- the characters of an address ----------

  function Count(s: string, c: char): nat {
    if s == "" then 0 else (if s[0] == c then 1 else 0) + Count(s[1..], c)
  }

  lemma {:induction false} CountConcat(a: string, b: string, c: char)
    ensures Count(a + b, c) == Count(a, c) + Count(b, c)
  {
    if a == "" {
      assert a + b == b;
    } else {
      CountConcat(a[1..], b, c);
      assert (a + b)[1..] == a[1..] + b;
    }
  }

  lemma {:induction false} CountIn(s: string, c: char)
    ensures Count(s, c) > 0 <==> c in s
  {
    if s != "" {
      CountIn(s[1..], c);
      assert s == [s[0]] + s[1..];
    }
  }

  lemma {:induction false} QuadChars(s: string, i: nat, pos: nat, val: nat, digits: nat)
    requires i <= |s| && Quad(s, i, pos, val, digits)
    ensures forall k :: i <= k < |s| ==> IsDigit(s[k]) || s[k] == '.'
    decreases |s| - i
  {
    if i < |s| {
      if IsDigit(s[i]) {
        QuadChars(s, i + 1, pos, val * 10 + (s[i] as nat - '0' as nat), digits + 1);
      } else {
        QuadChars(s, i + 1, pos + 1, 0, 0);
      }
    }
  }

  predicate AddressChars(s: string) {
    forall k :: 0 <= k < |s| ==> IsHex(s[k]) || s[k] == '.' || s[k] == ':'
  }

  lemma {:induction false} HexRunIsHex(s: string)
    ensures forall k :: 0 <= k < HexRun(s) ==> IsHex(s[k])
  {
    if s != "" && IsHex(s[0]) {
      HexRunIsHex(s[1..]);
      assert forall k :: 0 < k < HexRun(s) ==> s[k] == s[1..][k - 1];
    }
  }

  lemma {:induction false} GroupsChars(s: string, bytes: nat, ellipsis: bool)
    requires Groups(s, bytes, ellipsis)
    ensures AddressChars(s)
    decreases |s|
  {
    if bytes < 16 {
      var n := HexRun(s);
      HexRunIsHex(s);
      if n < |s| && s[n] == '.' {
        QuadChars(s, 0, 0, 0, 0);
      } else if n < |s| && s[n + 1] == ':' {
        if n + 2 < |s| {
          GroupsChars(s[n + 2..], bytes + 2, true);
          assert forall k :: n + 2 <= k < |s| ==> s[k] == s[n + 2..][k - n - 2];
        }
      } else if n < |s| {
        GroupsChars(s[n + 1..], bytes + 2, ellipsis);
        assert forall k :: n + 1 <= k < |s| ==> s[k] == s[n + 1..][k - n - 1];
      }
    }
  }

  lemma {:induction false} GroupsColons(s: string, bytes: nat)
    requires Groups(s, bytes, false)
    ensures Count(s, ':') >= 2 || 2 * Count(s, ':') >= 12 - bytes
    decreases |s|
  {
    var n := HexRun(s);
    if bytes < 16 && n < |s| && s[n] == ':' {
      assert s == s[..n] + ([s[n]] + s[n + 1..]);
      CountConcat(s[..n], [s[n]] + s[n + 1..], ':');
      assert ([s[n]] + s[n + 1..])[1..] == s[n + 1..];
      assert Count([s[n]] + s[n + 1..], ':') == 1 + Count(s[n + 1..], ':');
      if s[n + 1] != ':' {
        GroupsColons(s[n + 1..], bytes + 2);
      }
    }
  }

  /** Without a colon an address is a dotted quad; with one it is an IPv6 address, which has two or
      more. Either way it consists of hexadecimal digits, dots and colons only. */
  lemma AddressShape(s: string)
    requires IsIP(s)
    ensures s != "" && AddressChars(s)
    ensures ':' !in s ==> IsIPv4(s)
    ensures ':' in s ==> Count(s, ':') >= 2 && IsIPv6(s)
  {
    KindOfAddress(s, 0);
    CountIn(s, ':');
    if IsIPv4(s) {
      QuadChars(s, 0, 0, 0, 0);
    } else if HasPrefix(s, "::") {
      assert s == "::" + s[2..];
      CountConcat("::", s[2..], ':');
      assert Count("::", ':') == 2 by { assert "::"[1..] == ":"; assert ":"[1..] == ""; }
      if s != "::" {
        GroupsChars(s[2..], 0, true);
        assert forall k :: 2 <= k < |s| ==> s[k] == s[2..][k - 2];
      }
    } else {
      GroupsChars(s, 0, false);
      GroupsColons(s, 0);
    }
  }

  lemma {:induction false} KindOfAddress(s: string, i: nat)
    requires i <= |s| && ParsesFrom(s, i)
    ensures IsIPv4(s) || IsIPv6(s)
    decreases |s| - i
  {
    if s[i] != '.' && s[i] != ':' {
      KindOfAddress(s, i + 1);
    }
  }

  // ---------- hosts and ports ----------

  datatype HostPort = HostPort(host: string, port: string)

  /** The position of the last `c`, or -1. */
  function LastIndex(s: string, c: char): (i: int)
    ensures -1 <= i < |s|
    ensures i >= 0 ==> s[i] == c
    ensures forall k :: i < k < |s| ==> s[k] != c
  {
    if s == "" then -1
    else if s[|s| - 1] == c then |s| - 1
    else LastIndex(s[..|s| - 1], c)
  }

  /** The position of the first `c`, or -1. */
  function Index(s: string, c: char): (i: int)
    ensures -1 <= i < |s|
    ensures i >= 0 ==> s[i] == c
    ensures forall k :: 0 <= k < (if i < 0 then |s| else i) ==> s[k] != c
  {
    if s == "" then -1
    else if s[0] == c then 0
    else
      var i := Index(s[1..], c);
      if i < 0 then -1 else i + 1
  }

  /** net.SplitHostPort */
  function SplitHostPort(s: string): Option<HostPort> {
    var i := LastIndex(s, ':');
    if i < 0 then None
    else if s[0] == '[' then
      var end := Index(s, ']');
      if end < 0 || end + 1 != i then None
      else if '[' in s[1..] || ']' in s[end + 1..] then None
      else Some(HostPort(s[1..end], s[i + 1..]))
    else if ':' in s[..i] || '[' in s || ']' in s then None
    else Some(HostPort(s[..i], s[i + 1..]))
  }

  /** net.JoinHostPort */
  function JoinHostPort(host: string, port: string): string {
    if ':' in host then "[" + host + "]:" + port else host + ":" + port
  }

  /** What a port can hold once SplitHostPort has let it through. */
  predicate CleanPort(port: string) {
    ':' !in port && '[' !in port && ']' !in port
  }

  lemma SplitPortIsClean(s: string)
    requires SplitHostPort(s).Some?
    ensures CleanPort(SplitHostPort(s).value.port)
  {
  }

  lemma LastIndexAt(s: string, c: char, i: nat)
    requires i < |s| && s[i] == c && c !in s[i + 1..]
    ensures LastIndex(s, c) == i
  {
  }

  lemma {:induction false} LastColon(host: string, port: string)
    requires ':' !in port
    ensures LastIndex(host + ":" + port, ':') == |host|
  {
    var s := host + ":" + port;
    assert s[|host| + 1..] == port;
    LastIndexAt(s, ':', |host|);
  }

  lemma IndexAt(s: string, c: char, i: nat)
    requires i < |s| && s[i] == c && c !in s[..i]
    ensures Index(s, c) == i
  {
  }

  lemma AddressHasNoBrackets(ip: string)
    requires IsIP(ip)
    ensures '[' !in ip && ']' !in ip && ip != ""
  {
    AddressShape(ip);
  }

  lemma BracketedIndexes(ip: string, port: string)
    requires IsIP(ip) && CleanPort(port)
    ensures var s := "[" + ip + "]:" + port;
            Index(s, ']') == |ip| + 1 && LastIndex(s, ':') == |ip| + 2
  {
    AddressHasNoBrackets(ip);
    var s := "[" + ip + "]:" + port;
    assert s[..|ip| + 1] == "[" + ip;
    IndexAt(s, ']', |ip| + 1);
    assert s[|ip| + 3..] == port;
    LastIndexAt(s, ':', |ip| + 2);
  }

  lemma BracketedParts(ip: string, port: string)
    requires IsIP(ip) && CleanPort(port)
    ensures var s := "[" + ip + "]:" + port;
            && s[0] == '[' && s[1..|ip| + 1] == ip && s[|ip| + 3..] == port
            && '[' !in s[1..] && ']' !in s[|ip| + 2..]
  {
    AddressHasNoBrackets(ip);
    var s := "[" + ip + "]:" + port;
    assert s[1..] == ip + ("]:" + port);
    assert s[|ip| + 2..] == ":" + port;
  }

  /** A bracketed host with a port is split into the two. */
  lemma SplitBracketed(ip: string, port: string)
    requires IsIP(ip) && CleanPort(port)
    ensures SplitHostPort("[" + ip + "]:" + port) == Some(HostPort(ip, port))
  {
    BracketedIndexes(ip, port);
    BracketedParts(ip, port);
  }

  /** A host without a colon and a port are split into the two. */
  lemma SplitPlain(ip: string, port: string)
    requires IsIP(ip) && ':' !in ip && CleanPort(port)
    ensures SplitHostPort(ip + ":" + port) == Some(HostPort(ip, port))
  {
    AddressShape(ip);
    var s := ip + ":" + port;
    LastColon(ip, port);
    assert s[..|ip|] == ip && s[|ip| + 1..] == port;
    assert s[0] == ip[0];
  }

  /** Splitting undoes joining, for IPv4 and IPv6 addresses alike. */
  lemma SplitUndoesJoin(ip: string, port: string)
    requires IsIP(ip) && CleanPort(port)
    ensures SplitHostPort(JoinHostPort(ip, port)) == Some(HostPort(ip, port))
  {
    if ':' in ip { SplitBracketed(ip, port); } else { SplitPlain(ip, port); }
  }

  /** A bare address is never taken for a host and a port. */
  lemma BareAddressDoesNotSplit(ip: string)
    requires IsIP(ip)
    ensures SplitHostPort(ip).None?
  {
    AddressShape(ip);
    var i := LastIndex(ip, ':');
    if i >= 0 {
      assert ip == ip[..i] + ([ip[i]] + ip[i + 1..]);
      CountConcat(ip[..i], [ip[i]] + ip[i + 1..], ':');
      assert ([ip[i]] + ip[i + 1..])[1..] == ip[i + 1..];
      CountIn(ip[i + 1..], ':');
      CountIn(ip[..i], ':');
    }
  }

  /** What SplitHostPort takes apart is, conversely, a host and a port put together. */
  lemma SplitIsOfJoined(s: string)
    requires SplitHostPort(s).Some?
    ensures var hp := SplitHostPort(s).value;
            || s == "[" + hp.host + "]:" + hp.port
            || (':' !in hp.host && s == hp.host + ":" + hp.port)
  {
  }
}
