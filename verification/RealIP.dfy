/** The client address behind trusted proxies (internal/middleware/realip.go), as the rest of the
    program reads it back (internal/clientip/clientip.go). */
module RealIP {
  import opened Basics
  import opened NetAddr

  // ---------- strings.Join, Split and TrimSpace ----------

  function Join(lines: seq<string>): string {
    if lines == [] then ""
    else if |lines| == 1 then lines[0]
    else lines[0] + "," + Join(lines[1..])
  }

  /** Puts a character in front of the first entry. */
  function Prepend(c: char, entries: seq<string>): seq<string>
    requires entries != []
  {
    [[c] + entries[0]] + entries[1..]
  }

  /** strings.Split(s, ","), which has one entry more than `s` has commas. */
  function Split(s: string): (entries: seq<string>)
    ensures entries != []
  {
    if s == "" then [""]
    else if s[0] == ',' then [""] + Split(s[1..])
    else Prepend(s[0], Split(s[1..]))
  }

  /** unicode.IsSpace */
  predicate IsSpace(c: char) {
    || '\t' <= c <= '\r' || c == ' ' || c as int == 0x85 || c as int == 0xA0 || c as int == 0x1680
    || 0x2000 <= c as int <= 0x200A || c as int == 0x2028 || c as int == 0x2029
    || c as int == 0x202F || c as int == 0x205F || c as int == 0x3000
  }

  function TrimSpace(s: string): string
    decreases |s|
  {
    if s == "" then s
    else if IsSpace(s[0]) then TrimSpace(s[1..])
    else if IsSpace(s[|s| - 1]) then TrimSpace(s[..|s| - 1])
    else s
  }

  /** strings.Trim(s, "[]") */
  function TrimBrackets(s: string): string
    decreases |s|
  {
    if s == "" then s
    else if s[0] == '[' || s[0] == ']' then TrimBrackets(s[1..])
    else if s[|s| - 1] == '[' || s[|s| - 1] == ']' then TrimBrackets(s[..|s| - 1])
    else s
  }

  // ---------- resolving ----------

  predicate Bracketed(s: string) {
    |s| >= 2 && s[0] == '[' && s[|s| - 1] == ']'
  }

  /** validIP */
  function ValidIP(entry: string): string {
    var s := TrimSpace(entry);
    if IsIP(s) then s
    else if SplitHostPort(s).Some? && IsIP(SplitHostPort(s).value.host) then SplitHostPort(s).value.host
    else if Bracketed(s) && IsIP(s[1..|s| - 1]) then s[1..|s| - 1]
    else ""
  }

  /** The address in the entry `hops` from the right. */
  function Pick(entries: seq<string>, hops: int): string
    requires hops >= 1
  {
    if |entries| < hops then "" else ValidIP(entries[|entries| - hops])
  }

  /** forwardedClientIP, on the joined X-Forwarded-For text. */
  function FromText(xff: string, xRealIP: string, hops: int): string {
    if hops <= 0 then ""
    else if xff == "" then ValidIP(xRealIP)
    else Pick(Split(xff), hops)
  }

  /** forwardedClientIP; `lines` are the X-Forwarded-For lines in the order they arrived. */
  function ForwardedClientIP(lines: seq<string>, xRealIP: string, hops: int): string {
    FromText(Join(lines), xRealIP, hops)
  }

  /** ClientIP */
  function ClientIP(remoteAddr: string): string {
    if SplitHostPort(remoteAddr).Some? then SplitHostPort(remoteAddr).value.host else TrimBrackets(remoteAddr)
  }

  class Request {
    const xForwardedFor: seq<string>
    const xRealIP: string
    var remoteAddr: string

    constructor (xForwardedFor: seq<string>, xRealIP: string, remoteAddr: string)
      ensures this.xForwardedFor == xForwardedFor && this.xRealIP == xRealIP && this.remoteAddr == remoteAddr
    {
      this.xForwardedFor, this.xRealIP, this.remoteAddr := xForwardedFor, xRealIP, remoteAddr;
    }
  }

  /** RealIP. Once an address is resolved, it is what ClientIP reads back, whether or not the socket
      address had a port, and a port there was is kept; otherwise the socket address stays. */
  method RewriteRemoteAddr(r: Request, trustedHops: int)
    modifies r
    ensures var ip := ForwardedClientIP(r.xForwardedFor, r.xRealIP, trustedHops);
            if ip == "" then r.remoteAddr == old(r.remoteAddr)
            else
              && IsIP(ip) && ClientIP(r.remoteAddr) == ip
              && (SplitHostPort(old(r.remoteAddr)).Some? ==>
                    SplitHostPort(r.remoteAddr) == Some(HostPort(ip, SplitHostPort(old(r.remoteAddr)).value.port)))
              && (SplitHostPort(old(r.remoteAddr)).None? ==> r.remoteAddr == ip)
  {
    var ip := ForwardedClientIP(r.xForwardedFor, r.xRealIP, trustedHops);
    if ip != "" {
      var split := SplitHostPort(r.remoteAddr);
      if split.Some? {
        SplitPortIsClean(r.remoteAddr);
        SplitUndoesJoin(ip, split.value.port);
        r.remoteAddr := JoinHostPort(ip, split.value.port);
      } else {
        BareAddressDoesNotSplit(ip);
        AddressKeepsItsEnds(ip);
        r.remoteAddr := ip;
      }
    }
  }

  lemma AddressKeepsItsEnds(ip: string)
    requires IsIP(ip)
    ensures TrimBrackets(ip) == ip
  {
    AddressShape(ip);
  }

  // ---------- which entries are an address ----------

  /** White space, the characters Unicode gives that property. */
  ghost predicate IsWhite(s: string) {
    forall c :: c in s ==>
      || 9 <= c as int <= 13 || c as int in {32, 0x85, 0xA0, 0x1680, 0x2028, 0x2029, 0x202F, 0x205F, 0x3000}
      || 0x2000 <= c as int <= 0x200A
  }

  /** `s` with nothing but white space around it. */
  ghost predicate Pads(entry: string, s: string) {
    exists a: string, b: string :: PadsWith(entry, s, a, b)
  }

  ghost predicate PadsWith(entry: string, s: string, a: string, b: string) {
    IsWhite(a) && IsWhite(b) && entry == a + s + b
  }

  /** The forms an entry can have: the bare address, in brackets, or with a port after it. */
  ghost predicate WritesAddress(s: string, ip: string) {
    || s == ip
    || s == "[" + ip + "]"
    || exists port :: IsPort(port) && WithPort(s, ip, port)
  }

  /** What may follow the colon of a port: no colon and no bracket, and no space at the end. */
  ghost predicate IsPort(port: string) {
    && ':' !in port && '[' !in port && ']' !in port
    && (port != "" ==> !IsWhite([port[|port| - 1]]))
  }

  ghost predicate WithPort(s: string, ip: string, port: string) {
    s == "[" + ip + "]:" + port || (':' !in ip && s == ip + ":" + port)
  }

  // ---------- what trimming does ----------

  lemma WhiteIsSpace(s: string)
    ensures IsWhite(s) <==> forall i :: 0 <= i < |s| ==> IsSpace(s[i])
  {
    assert forall c :: c in s ==> exists i :: 0 <= i < |s| && s[i] == c;
    assert forall i :: 0 <= i < |s| ==> s[i] in s;
    assert forall c: char :: IsSpace(c) <==>
      || 9 <= c as int <= 13 || c as int in {32, 0x85, 0xA0, 0x1680, 0x2028, 0x2029, 0x202F, 0x205F, 0x3000}
      || 0x2000 <= c as int <= 0x200A;
  }

  ghost predicate NoSpaceAtEnds(s: string) {
    s != "" ==> !IsSpace(s[0]) && !IsSpace(s[|s| - 1])
  }

  lemma PadsMore(a': string, entry: string, b': string, s: string)
    requires Pads(entry, s)
    requires forall i :: 0 <= i < |a'| ==> IsSpace(a'[i])
    requires forall i :: 0 <= i < |b'| ==> IsSpace(b'[i])
    ensures Pads(a' + entry + b', s)
  {
    var a, b :| PadsWith(entry, s, a, b);
    WhiteIsSpace(a');
    WhiteIsSpace(b');
    assert a' + (a + s + b) + b' == (a' + a) + s + (b + b');
    assert PadsWith(a' + entry + b', s, a' + a, b + b');
  }

  lemma PadsInFront(entry: string, s: string)
    requires entry != "" && IsSpace(entry[0]) && Pads(entry[1..], s)
    ensures Pads(entry, s)
  {
    PadsMore([entry[0]], entry[1..], [], s);
    assert entry == [entry[0]] + entry[1..] + [];
  }

  lemma PadsAtBack(entry: string, s: string)
    requires entry != "" && IsSpace(entry[|entry| - 1]) && Pads(entry[..|entry| - 1], s)
    ensures Pads(entry, s)
  {
    PadsMore([], entry[..|entry| - 1], [entry[|entry| - 1]], s);
    assert entry == [] + entry[..|entry| - 1] + [entry[|entry| - 1]];
  }

  /** What TrimSpace leaves has white space around it and none at its ends. */
  lemma {:induction false} TrimmedIsPadded(s: string)
    ensures Pads(s, TrimSpace(s)) && NoSpaceAtEnds(TrimSpace(s))
    decreases |s|
  {
    if s == "" {
      assert PadsWith(s, "", "", "");
    } else if IsSpace(s[0]) {
      TrimmedIsPadded(s[1..]);
      PadsInFront(s, TrimSpace(s));
    } else if IsSpace(s[|s| - 1]) {
      var front := s[..|s| - 1];
      TrimmedIsPadded(front);
      PadsAtBack(s, TrimSpace(s));
    } else {
      assert "" + s + "" == s;
      assert PadsWith(s, s, "", "");
    }
  }

  lemma {:induction false} TrimRight(s: string, b: string)
    requires NoSpaceAtEnds(s) && s != "" && IsWhite(b)
    ensures TrimSpace(s + b) == s
    decreases |b|
  {
    if b == "" {
      assert s + b == s;
    } else {
      WhiteIsSpace(b);
      var front := b[..|b| - 1];
      WhiteIsSpace(front);
      assert (s + b)[..|s + b| - 1] == s + front;
      assert (s + b)[0] == s[0];
      TrimRight(s, front);
    }
  }

  /** And that determines it. */
  lemma {:induction false} TrimPadded(s: string, a: string, b: string)
    requires NoSpaceAtEnds(s) && s != "" && IsWhite(a) && IsWhite(b)
    ensures TrimSpace(a + s + b) == s
    decreases |a|
  {
    if a == "" {
      assert a + s + b == s + b;
      TrimRight(s, b);
    } else {
      WhiteIsSpace(a);
      WhiteIsSpace(a[1..]);
      assert (a + s + b)[1..] == a[1..] + s + b;
      TrimPadded(s, a[1..], b);
    }
  }

  /** However it is written, an address has no white space at its ends. */
  lemma WrittenHasNoSpaceAtEnds(s: string, ip: string)
    requires IsIP(ip) && WritesAddress(s, ip)
    ensures s != "" && NoSpaceAtEnds(s)
  {
    AddressShape(ip);
    if s != ip && s != "[" + ip + "]" {
      var port :| IsPort(port) && WithPort(s, ip, port);
      if port != "" {
        assert s[|s| - 1] == port[|port| - 1];
        WhiteIsSpace([port[|port| - 1]]);
      } else {
        assert s[|s| - 1] == ':';
      }
    }
  }

  lemma PortOfTrimmed(s: string, host: string, port: string)
    requires NoSpaceAtEnds(s) && CleanPort(port) && WithPort(s, host, port)
    ensures IsPort(port)
  {
    if port != "" {
      var last := port[|port| - 1];
      assert s[|s| - 1] == last;
      WhiteIsSpace([last]);
      assert [last][0] == last;
    }
  }

  lemma BracketedIsNoAddress(s: string)
    requires '[' in s
    ensures !IsIP(s)
  {
    if IsIP(s) {
      AddressShape(s);
    }
  }

  lemma QuadWithPortIsNoAddress(ip: string, port: string)
    requires IsIP(ip) && ':' !in ip
    ensures !IsIP(ip + ":" + port)
  {
    var s := ip + ":" + port;
    assert s[|ip|] == ':';
    AddressShape(ip);
    QuadChars(ip, 0, 0, 0, 0);
    QuadHasDot(ip, 0, 0, 0, 0);
    assert ip[0..] == ip && s == ip + (":" + port);
    if IsIP(s) {
      DotComesFirst(ip, ":" + port, 0);
      QuadChars(s, 0, 0, 0, 0);
    }
  }

  lemma {:induction false} QuadHasDot(s: string, i: nat, pos: nat, val: nat, digits: nat)
    requires i <= |s| && Quad(s, i, pos, val, digits) && pos < 3
    ensures '.' in s[i..]
    decreases |s| - i
  {
    assert s[i..] == [s[i]] + s[i + 1..];
    if IsDigit(s[i]) {
      QuadHasDot(s, i + 1, pos, val * 10 + (s[i] as nat - '0' as nat), digits + 1);
    }
  }

  lemma {:induction false} DotComesFirst(s: string, rest: string, i: nat)
    requires i <= |s| && '.' in s[i..] && ParsesFrom(s + rest, i)
    requires forall k :: 0 <= k < |s| ==> IsDigit(s[k]) || s[k] == '.'
    ensures IsIPv4(s + rest)
    decreases |s| - i
  {
    assert (s + rest)[i] == s[i];
    if s[i] != '.' {
      assert s[i..] == [s[i]] + s[i + 1..];
      DotComesFirst(s, rest, i + 1);
    }
  }

  lemma {:induction false} ResolvedIsWritten(entry: string)
    requires ValidIP(entry) != ""
    ensures IsIP(ValidIP(entry)) && WritesAddress(TrimSpace(entry), ValidIP(entry))
  {
    var s := TrimSpace(entry);
    if !IsIP(s) && SplitHostPort(s).Some? && IsIP(SplitHostPort(s).value.host) {
      SplitIsOfJoined(s);
      SplitPortIsClean(s);
      TrimmedIsPadded(entry);
      PortOfTrimmed(s, SplitHostPort(s).value.host, SplitHostPort(s).value.port);
      assert WithPort(s, SplitHostPort(s).value.host, SplitHostPort(s).value.port);
    } else if !IsIP(s) {
      assert s == "[" + s[1..|s| - 1] + "]";
    }
  }

  lemma WithPortResolves(entry: string, ip: string, port: string)
    requires IsIP(ip) && CleanPort(port) && WithPort(TrimSpace(entry), ip, port)
    ensures ValidIP(entry) == ip
  {
    var s := TrimSpace(entry);
    if s == "[" + ip + "]:" + port {
      assert s[0] == '[';
      BracketedIsNoAddress(s);
      SplitBracketed(ip, port);
    } else {
      QuadWithPortIsNoAddress(ip, port);
      SplitPlain(ip, port);
    }
  }

  lemma BracketedResolves(entry: string, ip: string)
    requires IsIP(ip) && TrimSpace(entry) == "[" + ip + "]"
    ensures ValidIP(entry) == ip
  {
    var s := TrimSpace(entry);
    assert s[0] == '[' && s[1..|s| - 1] == ip;
    BracketedIsNoAddress(s);
    BracketsAloneDoNotSplit(ip);
  }

  lemma WrittenResolves(entry: string, ip: string)
    requires IsIP(ip) && WritesAddress(TrimSpace(entry), ip)
    ensures ValidIP(entry) == ip
  {
    var s := TrimSpace(entry);
    if s == "[" + ip + "]" {
      BracketedResolves(entry, ip);
    } else if s != ip {
      var port :| IsPort(port) && WithPort(s, ip, port);
      WithPortResolves(entry, ip, port);
    }
  }

  /** `entry` is the address `ip`, bare, in brackets or with a port, with any white space around it. */
  ghost predicate GivesAddress(entry: string, ip: string) {
    IsIP(ip) && exists s :: WritesAddress(s, ip) && Pads(entry, s)
  }

  /** An entry resolves to an address exactly when, white space around it aside, it is that address bare,
      in brackets, or followed by a port; anything else resolves to nothing. */
  lemma ValidIPExactly(entry: string, ip: string)
    requires ip != ""
    ensures ValidIP(entry) == ip <==> GivesAddress(entry, ip)
  {
    if ValidIP(entry) == ip {
      ResolvedIsWritten(entry);
      TrimmedIsPadded(entry);
    }
    if GivesAddress(entry, ip) {
      var s :| WritesAddress(s, ip) && Pads(entry, s);
      var a, b :| PadsWith(entry, s, a, b);
      WrittenHasNoSpaceAtEnds(s, ip);
      TrimPadded(s, a, b);
      WrittenResolves(entry, ip);
    }
  }

  lemma BracketsAloneDoNotSplit(ip: string)
    requires IsIP(ip)
    ensures SplitHostPort("[" + ip + "]").None?
  {
  }

  // ---------- which entry decides ----------

  lemma {:induction false} SplitJoined(entries: seq<string>)
    requires entries != [] && forall i :: 0 <= i < |entries| ==> ',' !in entries[i]
    ensures Split(Join(entries)) == entries
  {
    SplitWithoutComma(entries[0]);
    if |entries| > 1 {
      SplitJoined(entries[1..]);
      SplitConcat(entries[0], Join(entries[1..]));
    }
  }

  /** Entries sent as one line, as a line each, or anything in between, resolve to the address the one
      `hops` from the right gives, and to nothing if it gives none or there are too few. */
  lemma EntryFromTheRightDecides(lines: seq<string>, entries: seq<string>, x: string, hops: int, ip: string)
    requires hops >= 1 && ip != "" && Join(lines) == Join(entries) != ""
    requires forall i :: 0 <= i < |entries| ==> ',' !in entries[i]
    ensures ForwardedClientIP(lines, x, hops) == ip <==>
              hops <= |entries| && GivesAddress(entries[|entries| - hops], ip)
  {
    SplitJoined(entries);
    if hops <= |entries| {
      ValidIPExactly(entries[|entries| - hops], ip);
    }
  }

  /** Addresses separated by commas, with white space around them or not, resolve to the one `hops` from
      the right. */
  lemma ListedAddressResolves(entries: seq<string>, ips: seq<string>, x: string, hops: int)
    requires 1 <= hops <= |entries| == |ips|
    requires forall i :: 0 <= i < |ips| ==> IsIP(ips[i]) && Pads(entries[i], ips[i])
    ensures ForwardedClientIP([Join(entries)], x, hops) == ips[|ips| - hops]
  {
    forall i | 0 <= i < |entries| ensures ',' !in entries[i] && entries[i] != "" {
      var a, b :| PadsWith(entries[i], ips[i], a, b);
      AddressShape(ips[i]);
      assert ',' !in a && ',' !in b && ',' !in ips[i];
    }
    JoinStartsWith(entries);
    assert [Join(entries)][0] == Join(entries);
    var ip := ips[|ips| - hops];
    AddressShape(ip);
    assert WritesAddress(ip, ip);
    EntryFromTheRightDecides([Join(entries)], entries, x, hops, ip);
  }

  lemma JoinStartsWith(entries: seq<string>)
    requires entries != [] && entries[0] != ""
    ensures Join(entries) != ""
  {
  }

  /** Without an X-Forwarded-For text, a trusted proxy's X-Real-IP is what counts. */
  lemma RealIPHeaderDecides(lines: seq<string>, x: string, hops: int, ip: string)
    requires hops >= 1 && ip != "" && (lines == [] || lines == [""])
    ensures ForwardedClientIP(lines, x, hops) == ip <==> GivesAddress(x, ip)
  {
    ValidIPExactly(x, ip);
  }

  /** ClientIP reads an address back from a socket address with a port, from one without, and from one in
      brackets. */
  lemma ClientIPReadsBack(ip: string, port: string)
    requires IsIP(ip) && ':' !in port && '[' !in port && ']' !in port
    ensures ClientIP(ip) == ip && ClientIP("[" + ip + "]") == ip && ClientIP("[" + ip + "]:" + port) == ip
    ensures ':' !in ip ==> ClientIP(ip + ":" + port) == ip
  {
    BareAddressDoesNotSplit(ip);
    AddressKeepsItsEnds(ip);
    BracketsAloneDoNotSplit(ip);
    TrimsBrackets(ip);
    SplitBracketed(ip, port);
    if ':' !in ip {
      SplitPlain(ip, port);
    }
  }

  lemma TrimsBrackets(ip: string)
    requires IsIP(ip)
    ensures TrimBrackets("[" + ip + "]") == ip
  {
    AddressShape(ip);
    AddressKeepsItsEnds(ip);
    var s := "[" + ip + "]";
    assert s[1..] == ip + "]";
    assert (ip + "]")[0] == ip[0] && (ip + "]")[..|ip|] == ip;
  }

  // ---------- who decides the address ----------

  lemma PrependConcat(c: char, a: seq<string>, b: seq<string>)
    requires a != []
    ensures Prepend(c, a + b) == Prepend(c, a) + b
  {
  }

  lemma {:induction false} SplitConcat(a: string, b: string)
    ensures Split(a + "," + b) == Split(a) + Split(b)
  {
    var s := a + "," + b;
    if a == "" {
      assert s[0] == ',' && s[1..] == b;
    } else {
      assert s[0] == a[0] && s[1..] == a[1..] + "," + b;
      SplitConcat(a[1..], b);
      if a[0] == ',' {
        assert [""] + (Split(a[1..]) + Split(b)) == ([""] + Split(a[1..])) + Split(b);
      } else {
        PrependConcat(a[0], Split(a[1..]), Split(b));
      }
    }
  }

  lemma {:induction false} JoinConcat(a: seq<string>, b: seq<string>)
    requires a != [] && b != []
    ensures Join(a + b) == Join(a) + "," + Join(b)
  {
    assert (a + b)[1..] == a[1..] + b;
    if |a| > 1 {
      JoinConcat(a[1..], b);
      assert Join(a + b) == a[0] + "," + (Join(a[1..]) + "," + Join(b));
      assert a[0] + "," + (Join(a[1..]) + "," + Join(b)) == (a[0] + "," + Join(a[1..])) + "," + Join(b);
    } else {
      assert a[1..] + b == b;
    }
  }

  /** Text to the left of enough trusted entries has no say, and neither has X-Real-IP. */
  lemma OnlyTheEndOfTheTextCounts(front: string, end: string, x: string, y: string, hops: int)
    requires hops >= 1 && end != "" && |Split(end)| >= hops
    ensures FromText(front + "," + end, x, hops) == FromText(end, y, hops)
  {
    SplitConcat(front, end);
    PickConcat(Split(front), Split(end), hops);
    JoinedIsNotEmpty(front, end);
  }

  lemma PickConcat(theirs: seq<string>, ours: seq<string>, hops: int)
    requires hops >= 1 && |ours| >= hops
    ensures Pick(theirs + ours, hops) == Pick(ours, hops)
  {
  }

  lemma JoinedIsNotEmpty(front: string, end: string)
    ensures front + "," + end != ""
  {
  }

  /** Lines appended by the proxies, holding at least `hops` entries, decide the address whatever lines
      the client sent before them. */
  lemma {:induction false} ClientLinesHaveNoSay(client: seq<string>, appended: seq<string>, x: string, y: string,
                                                hops: int)
    requires hops >= 1 && Join(appended) != "" && |Split(Join(appended))| >= hops
    ensures ForwardedClientIP(client + appended, x, hops) == ForwardedClientIP(appended, y, hops)
  {
    if client == [] {
      assert client + appended == appended;
    } else {
      JoinConcat(client, appended);
      OnlyTheEndOfTheTextCounts(Join(client), Join(appended), x, y, hops);
    }
  }

  /** The same for a proxy that extends the client's last line instead of adding its own. */
  lemma ExtendingTheLastLineIsTheSame(client: seq<string>, entry: string, appended: seq<string>)
    requires client != []
    ensures Join(client[..|client| - 1] + [client[|client| - 1] + "," + entry] + appended)
         == Join(client + [entry] + appended)
  {
    var n := |client| - 1;
    var front, last := client[..n], client[n];
    assert client == front + [last];
    TwoInOneLine(last, entry, appended);
    if front == [] {
      assert front + [last + "," + entry] + appended == [last + "," + entry] + appended;
      assert client + [entry] + appended == [last, entry] + appended;
    } else {
      assert front + [last + "," + entry] + appended == front + ([last + "," + entry] + appended);
      assert client + [entry] + appended == front + ([last, entry] + appended);
      JoinDependsOnJoins(front, [last + "," + entry] + appended, [last, entry] + appended);
    }
  }

  lemma JoinDependsOnJoins(front: seq<string>, a: seq<string>, b: seq<string>)
    requires front != [] && a != [] && b != [] && Join(a) == Join(b)
    ensures Join(front + a) == Join(front + b)
  {
    JoinConcat(front, a);
    JoinConcat(front, b);
  }

  lemma TwoInOneLine(last: string, entry: string, appended: seq<string>)
    ensures Join([last + "," + entry] + appended) == Join([last, entry] + appended)
  {
  }

  // ---------- and when the client decides ----------

  lemma OneIsAddress(d: char)
    requires d == '1' || d == '2'
    ensures IsIP([d] + ".0.0.1") && ValidIP([d] + ".0.0.1") == [d] + ".0.0.1" && ',' !in [d] + ".0.0.1"
  {
    var s := [d] + ".0.0.1";
    assert |s| == 7 && s[1] == '.' && s[3] == '.' && s[5] == '.' && s[2] == '0' && s[4] == '0' && s[6] == '1';
    assert Quad(s, 7, 3, 1, 1);
    assert Quad(s, 6, 3, 0, 0);
    assert Quad(s, 5, 2, 0, 1);
    assert Quad(s, 4, 2, 0, 0);
    assert Quad(s, 3, 1, 0, 1);
    assert Quad(s, 2, 1, 0, 0);
    assert Quad(s, 1, 0, d as nat - '0' as nat, 1);
    assert ParsesFrom(s, 1);
    assert TrimSpace(s) == s;
  }

  lemma {:induction false} SplitWithoutComma(s: string)
    requires ',' !in s
    ensures Split(s) == [s]
  {
    if s != "" {
      SplitWithoutComma(s[1..]);
      assert s == [s[0]] + s[1..];
    }
  }

  function Repeat(line: string, n: nat): seq<string> {
    seq(n, i => line)
  }

  lemma {:induction false} SplitRepeated(line: string, n: nat)
    requires ',' !in line && n >= 1
    ensures Split(Join(Repeat(line, n))) == Repeat(line, n)
  {
    SplitWithoutComma(line);
    if n > 1 {
      assert Repeat(line, n) == [line] + Repeat(line, n - 1);
      SplitRepeated(line, n - 1);
      JoinConcat([line], Repeat(line, n - 1));
      SplitConcat(line, Join(Repeat(line, n - 1)));
    }
  }

  /** How many entries the appended lines hold. */
  function Entries(appended: seq<string>): nat {
    if appended == [] then 0 else |Split(Join(appended))|
  }

  /** With fewer entries than `hops` appended, a client that sends the missing ones picks the address. */
  lemma ClientPicks(appended: seq<string>, ip: string, hops: int)
    requires hops >= 1 && Entries(appended) < hops
    requires ip != "" && ',' !in ip
    ensures ForwardedClientIP(Repeat(ip, hops - Entries(appended)) + appended, "", hops) == ValidIP(ip)
  {
    var mine := Repeat(ip, hops - Entries(appended));
    SplitRepeated(ip, hops - Entries(appended));
    if appended == [] {
      assert mine + appended == mine;
      assert Join(mine) != "" by { assert mine[0] == ip; }
    } else {
      JoinConcat(mine, appended);
      SplitConcat(Join(mine), Join(appended));
      JoinedIsNotEmpty(Join(mine), Join(appended));
      assert (mine + Split(Join(appended)))[0] == ip;
    }
  }

  lemma {:induction false} EmptyJoin(lines: seq<string>)
    requires Join(lines) == ""
    ensures lines == [] || lines == [""]
  {
  }

  /** Nothing the client can send, neither lines nor X-Real-IP, has a say exactly when the appended
      lines are not empty and hold at least as many entries as there are trusted proxies. */
  lemma ClientHasNoSayExactlyWhen(appended: seq<string>, hops: int)
    requires hops >= 1
    ensures (forall c: seq<string>, d: seq<string>, x: string, y: string ::
               ForwardedClientIP(c + appended, x, hops) == ForwardedClientIP(d + appended, y, hops))
       <==> Join(appended) != "" && |Split(Join(appended))| >= hops
  {
    if Join(appended) != "" && |Split(Join(appended))| >= hops {
      forall c: seq<string>, d: seq<string>, x: string, y: string
        ensures ForwardedClientIP(c + appended, x, hops) == ForwardedClientIP(d + appended, y, hops)
      {
        ClientLinesHaveNoSay(c, appended, x, "", hops);
        ClientLinesHaveNoSay(d, appended, y, "", hops);
      }
    } else {
      OneIsAddress('1');
      OneIsAddress('2');
      var one, two := "1" + ".0.0.1", "2" + ".0.0.1";
      assert one[0] != two[0];
      if Entries(appended) < hops {
        ClientPicks(appended, one, hops);
        ClientPicks(appended, two, hops);
      } else {
        EmptyJoin(appended);
        assert ForwardedClientIP([] + appended, one, hops) == one;
        assert ForwardedClientIP([] + appended, two, hops) == two;
      }
    }
  }

  /** Whatever is resolved is an address and nothing else. */
  lemma ResolvedIsAddress(lines: seq<string>, xRealIP: string, hops: int)
    ensures var ip := ForwardedClientIP(lines, xRealIP, hops); ip == "" || IsIP(ip)
    ensures hops <= 0 ==> ForwardedClientIP(lines, xRealIP, hops) == ""
  {
  }
}
