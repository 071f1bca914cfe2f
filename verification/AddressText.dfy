/** What ParseIP accepts, as a grammar: dotted quads, and the text forms of section 2.2 of RFC 4291. */
module AddressText {
  import opened Basics
  import opened Numerals
  import opened NetAddr

  // ---------- dotted quads ----------

  /** Numbers printed in decimal, with dots between them. */
  ghost function Dotted(fields: seq<nat>): string {
    if fields == [] then ""
    else if |fields| == 1 then Decimal(fields[0])
    else Decimal(fields[0]) + "." + Dotted(fields[1..])
  }

  ghost predicate IsQuad(fields: seq<nat>) {
    |fields| == 4 && forall i :: 0 <= i < 4 ==> fields[i] <= 255
  }

  lemma OneMoreDigit(val: nat, d: nat)
    requires val > 0 && d < 10
    ensures Decimal(10 * val + d) == Decimal(val) + [Digit(d)]
  {
    assert (10 * val + d) / 10 == val && (10 * val + d) % 10 == d;
  }

  lemma FieldGrows(s: string, i: nat, val: nat, digits: nat)
    requires digits <= i < |s| && IsDigit(s[i]) && !(digits == 1 && val == 0)
    requires if digits > 0 then s[i - digits..i] == Decimal(val) else val == 0
    ensures s[i - digits..i + 1] == Decimal(val * 10 + (s[i] as nat - '0' as nat))
  {
    var d := s[i] as nat - '0' as nat;
    assert s[i - digits..i + 1] == s[i - digits..i] + [s[i]];
    if digits > 0 {
      assert |s[i - digits..i]| == digits;
      OneMoreDigit(val, d);
    }
  }

  /** What has been read of a field is `val` in decimal, and so the whole text is that of some fields. */
  lemma {:induction false} QuadIsDotted(s: string, i: nat, pos: nat, val: nat, digits: nat) returns (fields: seq<nat>)
    requires digits <= i <= |s| && pos <= 3 && val <= 255 && Quad(s, i, pos, val, digits)
    requires digits > 0 ==> s[i - digits..i] == Decimal(val)
    requires digits == 0 ==> val == 0 && i < |s| && (i == 0 || s[i - 1] == '.')
    ensures |fields| == 4 - pos && forall k :: 0 <= k < |fields| ==> fields[k] <= 255
    ensures s[i - digits..] == Dotted(fields)
    decreases |s| - i
  {
    if i == |s| {
      fields := [val];
    } else if IsDigit(s[i]) {
      var d := s[i] as nat - '0' as nat;
      FieldGrows(s, i, val, digits);
      fields := QuadIsDotted(s, i + 1, pos, val * 10 + d, digits + 1);
    } else {
      var rest := QuadIsDotted(s, i + 1, pos + 1, 0, 0);
      fields := [val] + rest;
      assert fields[1..] == rest;
      assert s[i - digits..] == s[i - digits..i] + "." + s[i + 1..];
    }
  }

  lemma {:induction false} PrefixIsLess(s: string, k: nat)
    requires IsDigits(s) && 0 < k <= |s|
    ensures IsDigits(s[..k]) && ValueOf(s[..k]) <= ValueOf(s)
  {
    if k == |s| {
      assert s[..k] == s;
    } else {
      var front := s[..|s| - 1];
      PrefixIsLess(front, k);
      assert front[..k] == s[..k];
    }
  }

  lemma NextDigit(numeral: string, k: nat)
    requires IsDigits(numeral) && k < |numeral|
    ensures IsDigits(numeral[..k + 1])
    ensures ValueOf(numeral[..k + 1])
         == (if k == 0 then 0 else 10 * ValueOf(numeral[..k])) + (numeral[k] as nat - '0' as nat)
  {
    assert numeral[..k + 1][..k] == numeral[..k];
  }

  /** What has been read of a field: the first `digits` digits of it. */
  function ValueSoFar(numeral: string, digits: nat): nat
    requires IsDigits(numeral) && digits <= |numeral|
  {
    if digits == 0 then 0 else ValueOf(numeral[..digits])
  }

  lemma NextValue(numeral: string, digits: nat)
    requires IsDigits(numeral) && digits < |numeral| && (ValueOf(numeral) > 0 ==> numeral[0] != '0')
    ensures ValueSoFar(numeral, digits + 1) == ValueSoFar(numeral, digits) * 10 + (numeral[digits] as nat - '0' as nat)
    ensures ValueSoFar(numeral, digits + 1) <= ValueOf(numeral)
    ensures digits == 1 && ValueOf(numeral) > 0 ==> ValueSoFar(numeral, digits) != 0
  {
    NextDigit(numeral, digits);
    PrefixIsLess(numeral, digits + 1);
    if digits == 1 {
      assert numeral[..1] == [numeral[0]];
    }
  }

  lemma DottedStarts(fields: seq<nat>)
    requires fields != []
    ensures Dotted(fields) == Decimal(fields[0]) + (if |fields| == 1 then "" else "." + Dotted(fields[1..]))
    ensures Dotted(fields) != ""
    ensures var numeral := Decimal(fields[0]);
            && IsDigits(numeral) && ValueOf(numeral) == fields[0]
            && (|numeral| > 1 ==> fields[0] > 0) && (fields[0] > 0 ==> numeral[0] != '0')
  {
    DecimalValue(fields[0]);
  }

  lemma QuadDigit(s: string, i: nat, pos: nat, val: nat, digits: nat)
    requires i < |s| && IsDigit(s[i]) && !(digits == 1 && val == 0)
    requires var val' := val * 10 + (s[i] as nat - '0' as nat); val' <= 255 && Quad(s, i + 1, pos, val', digits + 1)
    ensures Quad(s, i, pos, val, digits)
  {
  }

  lemma QuadDot(s: string, i: nat, pos: nat, val: nat, digits: nat)
    requires 0 < i < |s| - 1 && s[i] == '.' && s[i - 1] != '.' && pos < 3 && Quad(s, i + 1, pos + 1, 0, 0)
    ensures Quad(s, i, pos, val, digits)
  {
  }

  /** Reading a whole field comes down to what is read after it. */
  lemma {:induction false} ReadField(s: string, i: nat, pos: nat, numeral: string, digits: nat)
    requires IsDigits(numeral) && ValueOf(numeral) <= 255 && (|numeral| > 1 ==> ValueOf(numeral) > 0)
    requires ValueOf(numeral) > 0 ==> numeral[0] != '0'
    requires i + |numeral| <= |s| && s[i..i + |numeral|] == numeral && digits <= |numeral|
    requires Quad(s, i + |numeral|, pos, ValueOf(numeral), |numeral|)
    ensures Quad(s, i + digits, pos, ValueSoFar(numeral, digits), digits)
    decreases |numeral| - digits
  {
    if digits == |numeral| {
      assert numeral[..digits] == numeral;
    } else {
      assert s[i + digits] == s[i..i + |numeral|][digits];
      NextValue(numeral, digits);
      ReadField(s, i, pos, numeral, digits + 1);
      QuadDigit(s, i + digits, pos, ValueSoFar(numeral, digits), digits);
    }
  }

  lemma FieldParts(s: string, i: nat, numeral: string, rest: string)
    requires i <= |s| && s[i..] == numeral + rest
    ensures i + |numeral| <= |s| && s[i..i + |numeral|] == numeral && s[i + |numeral|..] == rest
  {
    assert s[i..i + |numeral|] == s[i..][..|numeral|];
    assert s[i + |numeral|..] == s[i..][|numeral|..];
  }

  lemma FieldThenDot(s: string, i: nat, pos: nat, n: nat, rest: string)
    requires i <= |s| && pos < 3 && s[i..] == Decimal(n) + ("." + rest) && rest != ""
    requires n <= 255 && i + |Decimal(n)| < |s| && Quad(s, i + |Decimal(n)| + 1, pos + 1, 0, 0)
    ensures Quad(s, i, pos, 0, 0)
  {
    var numeral := Decimal(n);
    var end := i + |numeral|;
    DottedStarts([n]);
    FieldParts(s, i, numeral, "." + rest);
    FieldParts(s, end, ".", rest);
    assert s[end - 1] == s[i..end][|numeral| - 1] && s[end] == s[end..end + 1][0];
    QuadDot(s, end, pos, n, |numeral|);
    ReadField(s, i, pos, numeral, 0);
  }

  lemma AfterDot(s: string, i: nat, numeral: string, rest: string) returns (start: nat)
    requires i <= |s| && s[i..] == numeral + ("." + rest)
    ensures start == i + |numeral| + 1 <= |s| && s[start..] == rest
  {
    FieldParts(s, i, numeral, "." + rest);
    FieldParts(s, i + |numeral|, ".", rest);
    start := i + |numeral| + 1;
  }

  lemma {:induction false} DottedIsQuad(s: string, i: nat, pos: nat, fields: seq<nat>)
    requires i <= |s| && pos <= 3 && |fields| == 4 - pos && s[i..] == Dotted(fields)
    requires forall k :: 0 <= k < |fields| ==> fields[k] <= 255
    ensures Quad(s, i, pos, 0, 0)
    decreases |fields|
  {
    var numeral := Decimal(fields[0]);
    DottedStarts(fields);
    if |fields| == 1 {
      FieldParts(s, i, numeral, "");
      ReadField(s, i, pos, numeral, 0);
    } else {
      var next, rest := fields[1..], Dotted(fields[1..]);
      DottedStarts(next);
      var start := AfterDot(s, i, numeral, rest);
      DottedIsQuad(s, start, pos + 1, next);
      FieldThenDot(s, i, pos, fields[0], rest);
    }
  }

  /** A dotted quad is four numbers up to 255, in decimal without leading zeros. */
  lemma IPv4Exactly(s: string)
    ensures IsIPv4(s) <==> exists fields :: IsQuad(fields) && s == Dotted(fields)
  {
    assert s[0..] == s;
    if IsIPv4(s) {
      var fields := QuadIsDotted(s, 0, 0, 0, 0);
      assert IsQuad(fields);
    }
    if fields :| IsQuad(fields) && s == Dotted(fields) {
      DottedIsQuad(s, 0, 0, fields);
    }
  }

  // ---------- colon-separated groups ----------

  /** One to four hexadecimal digits. */
  ghost predicate IsGroup(g: string) {
    1 <= |g| <= 4
    && forall i :: 0 <= i < |g| ==> '0' <= g[i] <= '9' || 'a' <= g[i] <= 'f' || 'A' <= g[i] <= 'F'
  }

  ghost predicate AreGroups(gs: seq<string>) {
    forall i :: 0 <= i < |gs| ==> IsGroup(gs[i])
  }

  /** Groups, of two bytes each, of which the last may be a dotted quad, of four. */
  ghost predicate ArePieces(ps: seq<string>, bytes: nat) {
    && ps != []
    && AreGroups(ps[..|ps| - 1])
    && if IsIPv4(ps[|ps| - 1]) then bytes == 2 * |ps| + 2 else IsGroup(ps[|ps| - 1]) && bytes == 2 * |ps|
  }

  ghost function Colons(ps: seq<string>): string {
    if ps == [] then ""
    else if |ps| == 1 then ps[0]
    else ps[0] + ":" + Colons(ps[1..])
  }

  lemma {:induction false} HexRunOf(g: string, rest: string)
    requires forall i :: 0 <= i < |g| ==> IsHex(g[i])
    requires rest == "" || !IsHex(rest[0])
    ensures HexRun(g + rest) == |g|
  {
    if g == "" {
      assert g + rest == rest;
    } else {
      HexRunOf(g[1..], rest);
      assert (g + rest)[1..] == g[1..] + rest;
    }
  }

  lemma HexRunIsGroup(s: string)
    requires 1 <= HexRun(s) <= 4
    ensures IsGroup(s[..HexRun(s)])
  {
    HexRunIsHex(s);
  }

  lemma ThreeDigits(n: nat)
    requires n <= 255
    ensures |Decimal(n)| <= 3
  {
    if n >= 10 {
      assert |Decimal(n)| == |Decimal(n / 10)| + 1;
      assert n / 10 >= 10 ==> |Decimal(n / 10)| == |Decimal(n / 10 / 10)| + 1;
    }
  }

  lemma DottedRun(fields: seq<nat>)
    requires IsQuad(fields)
    ensures var s := Dotted(fields); 1 <= HexRun(s) <= 3 && HexRun(s) < |s| && s[HexRun(s)] == '.'
  {
    var numeral, rest := Decimal(fields[0]), "." + Dotted(fields[1..]);
    DottedStarts(fields);
    ThreeDigits(fields[0]);
    HexRunOf(numeral, rest);
  }

  /** A dotted quad begins with one to three digits and a dot. */
  lemma QuadStarts(s: string)
    requires IsIPv4(s)
    ensures 1 <= HexRun(s) <= 3 && HexRun(s) < |s| && s[HexRun(s)] == '.'
  {
    IPv4Exactly(s);
    var fields :| IsQuad(fields) && s == Dotted(fields);
    DottedRun(fields);
  }

  lemma PiecesStart(ps: seq<string>, bytes: nat)
    requires ArePieces(ps, bytes)
    ensures Colons(ps) != "" && IsHex(Colons(ps)[0])
  {
    if |ps| > 1 {
      assert ps[..|ps| - 1][0] == ps[0];
      assert IsGroup(ps[0]);
    } else if IsIPv4(ps[0]) {
      QuadStarts(ps[0]);
      HexRunIsHex(ps[0]);
    }
  }

  lemma PiecesTail(ps: seq<string>, bytes: nat)
    requires ArePieces(ps, bytes) && |ps| > 1
    ensures bytes >= 4 && IsGroup(ps[0]) && ArePieces(ps[1..], bytes - 2)
    ensures Colons(ps[1..]) != "" && IsHex(Colons(ps[1..])[0])
    ensures Colons(ps) == ps[0] + ":" + Colons(ps[1..])
  {
    PiecesRest(ps, bytes);
    PiecesStart(ps[1..], bytes - 2);
  }

  lemma PiecesRest(ps: seq<string>, bytes: nat)
    requires ArePieces(ps, bytes) && |ps| > 1
    ensures bytes >= 4 && IsGroup(ps[0]) && ArePieces(ps[1..], bytes - 2)
  {
    assert ps[..|ps| - 1][0] == ps[0];
    assert ps[1..][|ps[1..]| - 1] == ps[|ps| - 1];
    assert ps[1..][..|ps[1..]| - 1] == ps[..|ps| - 1][1..];
  }

  lemma PiecesOneMore(g: string, ps: seq<string>, bytes: nat)
    requires IsGroup(g) && ArePieces(ps, bytes)
    ensures ArePieces([g] + ps, bytes + 2) && Colons([g] + ps) == g + ":" + Colons(ps)
  {
    var qs := [g] + ps;
    assert qs[1..] == ps && qs[|qs| - 1] == ps[|ps| - 1];
    assert qs[..|qs| - 1] == [g] + ps[..|ps| - 1];
  }

  // ---------- after the ellipsis ----------

  lemma {:induction false} AfterIsPieces(s: string, bytes: nat) returns (ps: seq<string>, n: nat)
    requires Groups(s, bytes, true) && bytes % 2 == 0
    ensures ArePieces(ps, n) && bytes + n <= 14 && s == Colons(ps)
    decreases |s|
  {
    var k := HexRun(s);
    HexRunIsGroup(s);
    if k == |s| {
      assert s[..k] == s;
      ps, n := [s], 2;
      if IsIPv4(s) { QuadStarts(s); }
    } else if s[k] == '.' {
      ps, n := [s], 4;
    } else {
      ps, n := AfterIsPieces(s[k + 1..], bytes + 2);
      PiecesOneMore(s[..k], ps, n);
      ps, n := [s[..k]] + ps, n + 2;
      assert s == s[..k] + ":" + s[k + 1..];
    }
  }

  lemma GroupRun(g: string, rest: string)
    requires IsGroup(g) && (rest == "" || rest[0] == ':')
    ensures HexRun(g + rest) == |g|
  {
    HexRunOf(g, rest);
  }

  lemma GroupInFront(g: string, rest: string, bytes: nat, ellipsis: bool)
    requires IsGroup(g) && bytes < 16 && rest != "" && IsHex(rest[0]) && Groups(rest, bytes + 2, ellipsis)
    ensures Groups(g + ":" + rest, bytes, ellipsis)
  {
    var s := g + ":" + rest;
    assert s == g + (":" + rest);
    GroupRun(g, ":" + rest);
    assert s[|g| + 1..] == rest;
  }

  lemma LastIsGroups(s: string, n: nat, bytes: nat, ellipsis: bool)
    requires if IsIPv4(s) then n == 4 else n == 2 && IsGroup(s)
    requires if ellipsis then bytes + n <= 14 else bytes + n == 16
    ensures Groups(s, bytes, ellipsis)
  {
    if n == 4 {
      QuadStarts(s);
    } else {
      GroupRun(s, "");
      assert s + "" == s;
    }
  }

  /** Pieces for what is missing, or for less after an ellipsis, are what ParseIP goes on with. */
  lemma {:induction false} PiecesAreGroups(ps: seq<string>, n: nat, bytes: nat, ellipsis: bool)
    requires ArePieces(ps, n)
    requires if ellipsis then bytes + n <= 14 else bytes + n == 16
    ensures Groups(Colons(ps), bytes, ellipsis)
    decreases |ps|
  {
    if |ps| == 1 {
      LastIsGroups(ps[0], n, bytes, ellipsis);
    } else {
      PiecesTail(ps, n);
      PiecesAreGroups(ps[1..], n - 2, bytes + 2, ellipsis);
      GroupInFront(ps[0], Colons(ps[1..]), bytes, ellipsis);
    }
  }

  // ---------- before it, or without ----------

  /** How the bytes of an address are written: all of them in pieces; or groups, an ellipsis for at least
      one group left out, and pieces, worth `n` bytes, or nothing. */
  datatype Form = Full(ps: seq<string>) | Elided(l: seq<string>, r: seq<string>, n: nat)

  ghost predicate Fits(s: string, bytes: nat, f: Form) {
    match f
    case Full(ps) => ArePieces(ps, bytes) && s == Colons(ps)
    case Elided(l, r, n) =>
      && AreGroups(l) && (if r == [] then n == 0 else ArePieces(r, n))
      && 2 * |l| + n + 2 <= bytes && s == Colons(l) + "::" + Colons(r)
  }

  predicate BeginsWithGroup(f: Form) { f.Elided? ==> f.l != [] }

  lemma OneMoreGroup(g: string, s: string, bytes: nat, f: Form) returns (f': Form)
    requires IsGroup(g) && Fits(s, bytes, f) && BeginsWithGroup(f)
    ensures Fits(g + ":" + s, bytes + 2, f') && BeginsWithGroup(f')
  {
    match f
    case Full(ps) =>
      PiecesOneMore(g, ps, bytes);
      f' := Full([g] + ps);
    case Elided(l, r, n) =>
      assert ([g] + l)[1..] == l;
      assert g + ":" + (Colons(l) + "::" + Colons(r)) == (g + ":" + Colons(l)) + "::" + Colons(r);
      f' := Elided([g] + l, r, n);
  }

  lemma EllipsisFits(s: string, bytes: nat) returns (f: Form)
    requires bytes < 16 && bytes % 2 == 0 && Groups(s, bytes, false)
    requires var k := HexRun(s); k + 1 < |s| && s[k] == ':' && s[k + 1] == ':'
    ensures Fits(s, 16 - bytes, f) && BeginsWithGroup(f)
  {
    var k := HexRun(s);
    HexRunIsGroup(s);
    assert s == s[..k] + "::" + s[k + 2..];
    if k + 2 == |s| {
      f := Elided([s[..k]], [], 0);
    } else {
      var r, n := AfterIsPieces(s[k + 2..], bytes + 2);
      f := Elided([s[..k]], r, n);
    }
  }

  lemma LastFits(s: string, bytes: nat)
    requires bytes < 16 && bytes % 2 == 0 && Groups(s, bytes, false)
    requires HexRun(s) == |s| || s[HexRun(s)] == '.'
    ensures Fits(s, 16 - bytes, Full([s]))
  {
    HexRunIsGroup(s);
    if HexRun(s) == |s| {
      assert s[..HexRun(s)] == s;
      if IsIPv4(s) { QuadStarts(s); }
    }
  }

  lemma GroupThenRest(s: string, bytes: nat)
    requires bytes < 16 && bytes % 2 == 0 && Groups(s, bytes, false)
    requires var k := HexRun(s); k < |s| && s[k] != '.' && (k + 1 < |s| ==> s[k + 1] != ':')
    ensures var k := HexRun(s);
            && bytes < 14 && IsGroup(s[..k]) && Groups(s[k + 1..], bytes + 2, false)
            && s == s[..k] + ":" + s[k + 1..]
  {
    HexRunIsGroup(s);
  }

  lemma {:induction false} BeforeFits(s: string, bytes: nat) returns (f: Form)
    requires bytes < 16 && bytes % 2 == 0 && Groups(s, bytes, false)
    ensures Fits(s, 16 - bytes, f) && BeginsWithGroup(f)
    decreases |s|
  {
    var k := HexRun(s);
    if k == |s| || s[k] == '.' {
      LastFits(s, bytes);
      f := Full([s]);
    } else if k + 1 < |s| && s[k + 1] == ':' {
      f := EllipsisFits(s, bytes);
    } else {
      GroupThenRest(s, bytes);
      var rest := BeforeFits(s[k + 1..], bytes + 2);
      f := OneMoreGroup(s[..k], s[k + 1..], 14 - bytes, rest);
    }
  }

  lemma EllipsisAfterGroup(g: string, rest: string, bytes: nat)
    requires IsGroup(g) && bytes + 2 < 16 && (rest == "" || Groups(rest, bytes + 2, true))
    ensures Groups(g + "::" + rest, bytes, false)
  {
    var s := g + "::" + rest;
    assert s == g + ("::" + rest);
    GroupRun(g, "::" + rest);
    assert s[|g| + 2..] == rest;
  }

  lemma OneGroupElided(g: string, r: seq<string>, n: nat, bytes: nat)
    requires IsGroup(g) && (if r == [] then n == 0 else ArePieces(r, n)) && bytes + 4 + n <= 16
    ensures Groups(g + "::" + Colons(r), bytes, false)
  {
    if r != [] {
      PiecesAreGroups(r, n, bytes + 2, true);
    }
    EllipsisAfterGroup(g, Colons(r), bytes);
  }

  lemma ElidedTail(s: string, bytes: nat, l: seq<string>, r: seq<string>, n: nat) returns (tail: string)
    requires |l| > 1 && Fits(s, bytes, Elided(l, r, n))
    ensures bytes >= 2 && IsGroup(l[0]) && Fits(tail, bytes - 2, Elided(l[1..], r, n))
    ensures s == l[0] + ":" + tail && tail != "" && IsHex(tail[0])
  {
    tail := Colons(l[1..]) + "::" + Colons(r);
    assert l[0] + ":" + tail == (l[0] + ":" + Colons(l[1..])) + "::" + Colons(r);
    assert IsGroup(l[1]) && tail[0] == l[1][0];
  }

  lemma {:induction false} ElidedIsBefore(s: string, bytes: nat, l: seq<string>, r: seq<string>, n: nat)
    requires bytes < 16 && l != [] && Fits(s, 16 - bytes, Elided(l, r, n))
    ensures Groups(s, bytes, false)
    decreases |l|
  {
    if |l| == 1 {
      assert IsGroup(l[0]);
      OneGroupElided(l[0], r, n, bytes);
    } else {
      var tail := ElidedTail(s, 16 - bytes, l, r, n);
      ElidedIsBefore(tail, bytes + 2, l[1..], r, n);
      GroupInFront(l[0], tail, bytes, false);
    }
  }

  // ---------- addresses ----------

  /** The text forms of an IPv6 address: eight groups, or fewer with one ellipsis for at least one that
      is left out; the last two can be written as a dotted quad. */
  ghost predicate IsIPv6Text(s: string) {
    exists f :: Fits(s, 16, f)
  }

  lemma BeginsAsItsForm(s: string, f: Form)
    requires Fits(s, 16, f)
    ensures "::" <= s <==> !BeginsWithGroup(f)
  {
    match f
    case Full(ps) => PiecesStart(ps, 16);
    case Elided(l, r, n) => if l != [] { assert IsGroup(l[0]) && s[0] == l[0][0]; }
  }

  lemma LeadingEllipsis(s: string)
    requires "::" <= s
    ensures (s == "::" || Groups(s[2..], 0, true)) <==> IsIPv6Text(s)
  {
    if s == "::" {
      assert s == Colons([]) + "::" + Colons([]);
      assert Fits(s, 16, Elided([], [], 0));
    } else if Groups(s[2..], 0, true) {
      var r, n := AfterIsPieces(s[2..], 0);
      assert s == Colons([]) + "::" + Colons(r);
      assert Fits(s, 16, Elided([], r, n));
    }
    if f :| Fits(s, 16, f) {
      BeginsAsItsForm(s, f);
      assert s[2..] == Colons(f.r);
      if f.r != [] {
        PiecesAreGroups(f.r, f.n, 0, true);
      }
    }
  }

  lemma NoLeadingEllipsis(s: string)
    requires !("::" <= s)
    ensures Groups(s, 0, false) <==> IsIPv6Text(s)
  {
    if Groups(s, 0, false) {
      var f := BeforeFits(s, 0);
    }
    if f :| Fits(s, 16, f) {
      BeginsAsItsForm(s, f);
      if f.Full? {
        PiecesAreGroups(f.ps, 16, 0, false);
      } else {
        ElidedIsBefore(s, 0, f.l, f.r, f.n);
      }
    }
  }

  lemma NoPercent(s: string, ellipsis: bool)
    requires Groups(s, 0, ellipsis)
    ensures '%' !in s
  {
    GroupsChars(s, 0, ellipsis);
  }

  lemma IPv6Exactly(s: string)
    ensures IsIPv6(s) <==> IsIPv6Text(s)
  {
    if "::" <= s {
      LeadingEllipsis(s);
      if s != "::" && Groups(s[2..], 0, true) {
        NoPercent(s[2..], true);
        assert s == "::" + s[2..];
      }
    } else {
      NoLeadingEllipsis(s);
      if Groups(s, 0, false) {
        NoPercent(s, false);
      }
    }
  }

  lemma {:induction false} FirstMarkDecides(s: string, i: nat, j: nat)
    requires i <= j < |s| && (s[j] == '.' || s[j] == ':')
    requires forall k :: i <= k < j ==> IsHex(s[k])
    ensures ParsesFrom(s, i) == if s[j] == '.' then IsIPv4(s) else IsIPv6(s)
    decreases j - i
  {
    if i < j {
      FirstMarkDecides(s, i + 1, j);
    }
  }

  /** ParseIP accepts exactly the dotted quads and the text forms of IPv6 addresses. */
  lemma IsIPExactly(s: string)
    ensures IsIP(s) <==> (exists fields :: IsQuad(fields) && s == Dotted(fields)) || IsIPv6Text(s)
  {
    IPv4Exactly(s);
    IPv6Exactly(s);
    if IsIP(s) {
      KindOfAddress(s, 0);
    }
    HexRunIsHex(s);
    if IsIPv4(s) {
      QuadStarts(s);
      FirstMarkDecides(s, 0, HexRun(s));
    } else if IsIPv6(s) {
      FirstMarkDecides(s, 0, if "::" <= s then 0 else HexRun(s));
    }
  }
}
