/**
 The client key of a login attempt: trusted proxies as address blocks
 (backend/src/config.rs, section 3.1 of RFC 4632) and the right-to-left walk
 over the forwarded-for header (backend/src/routes/login.rs).

 Addresses are unsigned integers of 32 or 128 bits with bitwise operations
 written out. Parsing one address literal is a parameter.
 */
module ClientKey {
  import opened Prelude

  function Pow2(n: nat): (p: nat)
    ensures p > 0
  {
    if n == 0 then 1 else 2 * Pow2(n - 1)
  }

  datatype Address = V4(bits: nat) | V6(bits: nat) {
    function Width(): nat { if V4? then 32 else 128 }
  }

  type IpAddr = a: Address | a.bits < Pow2(a.Width()) witness V4(0)

  // ----- unsigned machine words -----

  /** Bitwise and. */
  function BitAnd(a: nat, b: nat): nat
    decreases a
  {
    if a == 0 || b == 0 then 0 else 2 * BitAnd(a / 2, b / 2) + (a % 2) * (b % 2)
  }

  /** Left shift of a word of `width` bits: bits shifted out are lost. */
  function ShiftLeft(x: nat, shift: nat, width: nat): nat {
    (x * Pow2(shift)) % Pow2(width)
  }

  /** `ipv4_mask` and `ipv6_mask`. */
  function Mask(prefix: nat, width: nat): nat
    requires prefix <= width
  {
    if prefix == 0 then 0 else ShiftLeft(Pow2(width) - 1, width - prefix, width)
  }

  datatype TrustedProxy = TrustedProxy(addr: IpAddr, prefix: nat)

  /** What parsing a token guarantees. */
  predicate WellFormed(p: TrustedProxy) {
    p.prefix <= p.addr.Width()
  }

  predicate Contains(p: TrustedProxy, candidate: IpAddr)
    requires WellFormed(p)
  {
    if p.addr.V4? == candidate.V4? then
      var mask := Mask(p.prefix, p.addr.Width());
      BitAnd(p.addr.bits, mask) == BitAnd(candidate.bits, mask)
    else false
  }

  lemma MulGrows(e: int, m: int)
    requires m >= 0
    ensures e >= 1 ==> e * m >= m
    ensures e <= -1 ==> e * m <= -m
  {
  }

  lemma ModUnique(q: nat, r: nat, m: nat)
    requires r < m
    ensures (q * m + r) % m == r && (q * m + r) / m == q
  {
    var x := q * m + r;
    var e := x / m - q;
    assert x == (x / m) * m + x % m;
    assert e * m == r - x % m;
    MulGrows(e, m);
  }

  lemma {:induction false} Pow2Monotone(a: nat, b: nat)
    requires a <= b
    ensures Pow2(a) <= Pow2(b)
  {
    if a < b {
      Pow2Monotone(a, b - 1);
    }
  }

  lemma Pow2Double(n: nat)
    ensures Pow2(n + 1) == 2 * Pow2(n)
  {
  }

  lemma MaskValue(prefix: nat, width: nat)
    requires prefix <= width
    ensures Pow2(width - prefix) <= Pow2(width)
    ensures Mask(prefix, width) == Pow2(width) - Pow2(width - prefix)
  {
    hide Pow2;
    Pow2Monotone(width - prefix, width);
    if prefix > 0 {
      Pow2Monotone(width - prefix, width - 1);
      Pow2Double(width - 1);
      ShiftedOnes(Pow2(width), Pow2(width - prefix));
    }
  }

  lemma ShiftedOnes(w: nat, s: nat)
    requires 0 < s < w
    ensures ((w - 1) * s) % w == w - s
  {
    assert (w - 1) * s == (s - 1) * w + (w - s);
    ModUnique(s - 1, w - s, w);
  }

  lemma DivTwice(x: nat, d: nat)
    requires d > 0
    ensures x / 2 / d == x / (2 * d)
  {
    var q, r := x / (2 * d), x % (2 * d);
    assert x == q * (2 * d) + r;
    assert x / 2 == q * d + r / 2;
    ModUnique(q, r / 2, d);
  }

  lemma BitAndStep(a: nat, b: nat)
    ensures BitAnd(a, b) == 2 * BitAnd(a / 2, b / 2) + (a % 2) * (b % 2)
  {
  }

  /** Masking clears the low bits and keeps the others. */
  lemma {:induction false} AndMask(x: nat, shift: nat, width: nat)
    requires x < Pow2(width) && shift <= width
    ensures Pow2(shift) <= Pow2(width)
    ensures BitAnd(x, Pow2(width) - Pow2(shift)) == Pow2(shift) * (x / Pow2(shift))
    decreases width
  {
    Pow2Monotone(shift, width);
    var mask := Pow2(width) - Pow2(shift);
    if width > 0 {
      var half := if shift == 0 then 0 else shift - 1;
      Pow2Double(width - 1);
      Pow2Monotone(half, width - 1);
      AndMask(x / 2, half, width - 1);
      BitAndStep(x, mask);
      MaskHalves(x, mask, Pow2(width - 1), Pow2(shift), Pow2(half), shift);
    }
  }

  lemma MaskHalves(x: nat, mask: nat, top: nat, unit: nat, halfUnit: nat, shift: nat)
    requires top >= halfUnit > 0 && mask == 2 * top - unit
    requires if shift == 0 then unit == halfUnit == 1 else unit == 2 * halfUnit
    ensures mask / 2 == top - halfUnit
    ensures 2 * (halfUnit * (x / 2 / halfUnit)) + (x % 2) * (mask % 2) == unit * (x / unit)
  {
    if shift > 0 {
      assert mask == 2 * (top - halfUnit);
      DivTwice(x, halfUnit);
      assert 2 * (halfUnit * (x / unit)) == unit * (x / unit);
    }
  }

  /**
   Membership in a block: same family, and the addresses agree on their first
   `prefix` bits. A prefix of 0 admits the whole family; a full one admits the
   address alone.
   */
  lemma ContainsIsPrefixEquality(p: TrustedProxy, candidate: IpAddr)
    requires p.prefix <= if p.addr.V4? then 32 else 128
    ensures var unit := Pow2((if p.addr.V4? then 32 else 128) - p.prefix);
            Contains(p, candidate) <==>
            p.addr.V4? == candidate.V4? && p.addr.bits / unit == candidate.bits / unit
    ensures p.prefix == 0 ==> (Contains(p, candidate) <==> p.addr.V4? == candidate.V4?)
    ensures p.prefix == (if p.addr.V4? then 32 else 128) ==> (Contains(p, candidate) <==> p.addr == candidate)
  {
    hide BitAnd, Mask;
    if p.addr.V4? == candidate.V4? {
      var width, shift := p.addr.Width(), p.addr.Width() - p.prefix;
      MaskValue(p.prefix, width);
      AndMask(p.addr.bits, shift, width);
      AndMask(candidate.bits, shift, width);
      var unit, a, b := Pow2(shift), p.addr.bits / Pow2(shift), candidate.bits / Pow2(shift);
      assert unit * a == unit * b <==> a == b by { SameMultiple(unit, a, b); }
      if p.prefix == 0 {
        Quotients(p.addr.bits, unit);
        Quotients(candidate.bits, unit);
      }
      assert p.prefix == width ==> unit == 1;
    }
  }

  lemma SameMultiple(unit: nat, a: nat, b: nat)
    requires unit > 0
    ensures unit * a == unit * b <==> a == b
  {
    if a < b {
      assert unit * (a + 1) <= unit * b;
    } else if b < a {
      assert unit * (b + 1) <= unit * a;
    }
  }

  lemma Quotients(x: nat, unit: nat)
    requires x < unit
    ensures x / unit == 0
  {
  }

  // ----- the header walk -----

  /** `value.split(',')`. */
  function Split(value: string): (parts: seq<string>)
    ensures |parts| > 0
  {
    if |value| == 0 then [""]
    else
      var rest := Split(value[1..]);
      if value[0] == ',' then [""] + rest else Prepend(value[0], rest)
  }

  function Prepend(c: char, parts: seq<string>): (longer: seq<string>)
    requires |parts| > 0
    ensures |longer| == |parts|
  {
    [[c] + parts[0]] + parts[1..]
  }

  /** Header text is visible ASCII, spaces and tabs. */
  predicate IsBlank(c: char) { c == ' ' || c == '\t' }

  function TrimLeft(s: string): string {
    if |s| > 0 && IsBlank(s[0]) then TrimLeft(s[1..]) else s
  }

  function TrimRight(s: string): string {
    if |s| > 0 && IsBlank(s[|s| - 1]) then TrimRight(s[..|s| - 1]) else s
  }

  function Trim(s: string): string {
    TrimRight(TrimLeft(s))
  }

  function Trimmed(parts: seq<string>): (trimmed: seq<string>)
    ensures |trimmed| == |parts|
  {
    if |parts| == 0 then [] else [Trim(parts[0])] + Trimmed(parts[1..])
  }

  function Elements(value: string): (elements: seq<string>)
    ensures |elements| > 0
  {
    Trimmed(Split(value))
  }

  type Parser = string -> Option<IpAddr>

  predicate Trusted(trusted: seq<TrustedProxy>, ip: IpAddr)
    requires forall p :: p in trusted ==> WellFormed(p)
  {
    exists p :: p in trusted && Contains(p, ip)
  }

  /** An element that can be the key: it parses and is not a trusted hop. */
  predicate Usable(element: string, trusted: seq<TrustedProxy>, parse: Parser)
    requires forall p :: p in trusted ==> WellFormed(p)
  {
    parse(element).Some? && !Trusted(trusted, parse(element).value)
  }

  /** The right-most usable element, if any. */
  function RightMost(elements: seq<string>, trusted: seq<TrustedProxy>, parse: Parser): Option<IpAddr>
    requires forall p :: p in trusted ==> WellFormed(p)
  {
    if |elements| == 0 then None
    else if Usable(elements[|elements| - 1], trusted, parse) then parse(elements[|elements| - 1])
    else RightMost(elements[..|elements| - 1], trusted, parse)
  }

  /** 127.0.0.1, the key of a request without a peer address. */
  const LOCAL_PEER_FALLBACK: Address := V4(0x7F00_0001)

  lemma FallbackIsAddress()
    ensures LOCAL_PEER_FALLBACK.bits < Pow2(32)
  {
    assert Pow2(8) == 256;
    assert Pow2(16) == 65536;
    assert Pow2(24) == 0x100_0000;
    assert Pow2(32) == 0x1_0000_0000;
  }

  function ClientKey(peer: Option<IpAddr>, header: Option<string>, trusted: seq<TrustedProxy>, parse: Parser): IpAddr
    requires forall p :: p in trusted ==> WellFormed(p)
  {
    if peer.None? then FallbackIsAddress(); LOCAL_PEER_FALLBACK
    else if !Trusted(trusted, peer.value) || header.None? then peer.value
    else
      var elements := Elements(header.value);
      if parse(elements[|elements| - 1]).None? then peer.value
      else
        var found := RightMost(elements, trusted, parse);
        if found.Some? then found.value else peer.value
  }

  method IsTrusted(trusted: seq<TrustedProxy>, ip: IpAddr) returns (found: bool)
    requires forall p :: p in trusted ==> WellFormed(p)
    ensures found == Trusted(trusted, ip)
  {
    for i := 0 to |trusted|
      invariant forall j :: 0 <= j < i ==> !Contains(trusted[j], ip)
    {
      if Contains(trusted[i], ip) {
        return true;
      }
    }
    found := false;
  }

  /** The walk over the elements, from the right, with early return. */
  method RateLimitKey(peer: Option<IpAddr>, header: Option<string>, trusted: seq<TrustedProxy>, parse: Parser)
    returns (key: IpAddr)
    requires forall p :: p in trusted ==> WellFormed(p)
    ensures key == ClientKey(peer, header, trusted, parse)
  {
    hide Contains, Elements;
    if peer.None? {
      FallbackIsAddress();
      return LOCAL_PEER_FALLBACK;
    }
    var peerTrusted := IsTrusted(trusted, peer.value);
    if !peerTrusted || header.None? {
      return peer.value;
    }
    var elements := Elements(header.value);
    if parse(elements[|elements| - 1]).None? {
      return peer.value;
    }
    var i := |elements|;
    assert elements[..i] == elements;
    while i > 0
      invariant 0 <= i <= |elements|
      invariant RightMost(elements, trusted, parse) == RightMost(elements[..i], trusted, parse)
    {
      i := i - 1;
      assert elements[..i + 1][..i] == elements[..i];
      var candidate := parse(elements[i]);
      if candidate.Some? {
        var hop := IsTrusted(trusted, candidate.value);
        if !hop {
          return candidate.value;
        }
      }
    }
    key := peer.value;
  }

  // ----- what the walk promises -----

  lemma {:induction false} RightMostIs(elements: seq<string>, trusted: seq<TrustedProxy>, parse: Parser)
    requires forall p :: p in trusted ==> WellFormed(p)
    ensures match RightMost(elements, trusted, parse)
            case None => forall i :: 0 <= i < |elements| ==> !Usable(elements[i], trusted, parse)
            case Some(ip) =>
              exists i ::
                0 <= i < |elements| && Usable(elements[i], trusted, parse) && parse(elements[i]) == Some(ip)
                          && forall j :: i < j < |elements| ==> !Usable(elements[j], trusted, parse)
  {
    hide Trusted;
    if |elements| > 0 && !Usable(elements[|elements| - 1], trusted, parse) {
      var init := elements[..|elements| - 1];
      RightMostIs(init, trusted, parse);
      assert forall i :: 0 <= i < |init| ==> init[i] == elements[i];
    }
  }

  predicate NoneOrTrusted(ip: Option<IpAddr>, trusted: seq<TrustedProxy>)
    requires forall p :: p in trusted ==> WellFormed(p)
  {
    ip.Some? ==> Trusted(trusted, ip.value)
  }

  /** An address is trusted if and only if it agrees with some listed block on that block's prefix. */
  lemma TrustedIsSomePrefix(trusted: seq<TrustedProxy>, ip: IpAddr)
    requires forall p :: p in trusted ==> WellFormed(p)
    ensures Trusted(trusted, ip) <==>
            exists p :: && p in trusted && p.addr.V4? == ip.V4?
                        && p.addr.bits / Pow2(p.addr.Width() - p.prefix) == ip.bits / Pow2(p.addr.Width() - p.prefix)
  {
    hide Contains;
    forall p | p in trusted
      ensures Contains(p, ip) <==>
              && p.addr.V4? == ip.V4?
              && p.addr.bits / Pow2(p.addr.Width() - p.prefix) == ip.bits / Pow2(p.addr.Width() - p.prefix)
    {
      ContainsIsPrefixEquality(p, ip);
    }
  }

  /**
   For a trusted peer whose right-most element parses, the key is the
   right-most element that parses and is not trusted, or else the peer; in all
   other cases it is the peer. So a trusted key can only be the peer. Without a
   peer address it is 127.0.0.1.
   */
  lemma KeyIsRightMostUntrusted(
      peer: IpAddr, header: Option<string>, trusted: seq<TrustedProxy>, parse: Parser)
    requires forall p :: p in trusted ==> WellFormed(p)
    ensures var key := ClientKey(Some(peer), header, trusted, parse);
            && (Trusted(trusted, key) ==> key == peer)
            && (!Trusted(trusted, peer) || header.None? ==> key == peer)
            && (Trusted(trusted, peer) && header.Some? ==>
                  var elements := Elements(header.value);
                  if parse(elements[|elements| - 1]).None?
                     || forall i :: 0 <= i < |elements| ==> NoneOrTrusted(parse(elements[i]), trusted)
                  then key == peer
                  else exists i ::
                    && 0 <= i < |elements| && parse(elements[i]) == Some(key) && !Trusted(trusted, key)
                    && forall j :: i < j < |elements| ==> NoneOrTrusted(parse(elements[j]), trusted))
    ensures ClientKey(None, header, trusted, parse) == V4(127 * 0x100_0000 + 1)
  {
    hide Contains, Elements;
    FallbackIsAddress();
    if header.Some? {
      RightMostIs(Elements(header.value), trusted, parse);
    }
  }

  // ----- the elements of a header -----

  /** Parts with commas between them. */
  function Joined(parts: seq<string>): string
    requires |parts| > 0
  {
    if |parts| == 1 then parts[0] else parts[0] + "," + Joined(parts[1..])
  }

  lemma JoinedCons(first: string, rest: seq<string>)
    requires |rest| > 0
    ensures Joined([first] + rest) == first + ("," + Joined(rest))
  {
    assert ([first] + rest)[1..] == rest;
    assert first + "," + Joined(rest) == first + ("," + Joined(rest));
  }

  lemma JoinedPrepend(c: char, parts: seq<string>)
    requires |parts| > 0
    ensures Joined(Prepend(c, parts)) == [c] + Joined(parts)
  {
    if |parts| > 1 {
      hide Joined;
      JoinedCons(parts[0], parts[1..]);
      JoinedCons([c] + parts[0], parts[1..]);
      assert parts == [parts[0]] + parts[1..];
    }
  }

  /** Splitting is exact: the parts hold no comma, and with commas between them they are the text again. */
  lemma {:induction false} SplitIsExact(value: string)
    ensures Joined(Split(value)) == value
    ensures forall i :: 0 <= i < |Split(value)| ==> ',' !in Split(value)[i]
  {
    if |value| > 0 {
      var rest := Split(value[1..]);
      SplitIsExact(value[1..]);
      assert value == [value[0]] + value[1..];
      if value[0] == ',' {
        assert ([""] + rest)[1..] == rest;
      } else {
        JoinedPrepend(value[0], rest);
      }
    }
  }

  /** Spaces and tabs only. */
  predicate Blank(s: string) {
    forall i :: 0 <= i < |s| ==> s[i] == ' ' || s[i] == '\t'
  }

  /** Nothing to trim: no space or tab at either end. */
  predicate Tight(s: string) {
    |s| > 0 ==>
      && s[0] != ' ' && s[0] != '\t'
      && s[|s| - 1] != ' ' && s[|s| - 1] != '\t'
  }

  lemma {:induction false} TrimLeftOf(l: string, t: string)
    requires Blank(l) && (|t| > 0 ==> t[0] != ' ' && t[0] != '\t')
    ensures TrimLeft(l + t) == t
  {
    if |l| > 0 {
      assert (l + t)[1..] == l[1..] + t;
      TrimLeftOf(l[1..], t);
    } else {
      assert l + t == t;
    }
  }

  lemma {:induction false} TrimRightOf(t: string, r: string)
    requires Blank(r) && (|t| > 0 ==> t[|t| - 1] != ' ' && t[|t| - 1] != '\t')
    ensures TrimRight(t + r) == t
  {
    if |r| > 0 {
      assert (t + r)[..|t + r| - 1] == t + r[..|r| - 1];
      TrimRightOf(t, r[..|r| - 1]);
    } else {
      assert t + r == t;
    }
  }

  /** Trimming removes exactly the blanks around a text. */
  lemma TrimIsExact(l: string, t: string, r: string)
    requires Blank(l) && Tight(t) && Blank(r)
    ensures Trim(l + t + r) == t
  {
    if |t| > 0 {
      assert l + t + r == l + (t + r);
      TrimLeftOf(l, t + r);
      TrimRightOf(t, r);
    } else {
      assert l + t + r == (l + r) + "";
      TrimLeftOf(l + r, "");
    }
  }

  lemma {:induction false} SplitPart(part: string)
    requires ',' !in part
    ensures Split(part) == [part]
  {
    if |part| > 0 {
      SplitPart(part[1..]);
      assert part == [part[0]] + part[1..];
    }
  }

  /** `part` is the text with blanks around it, and holds no comma. */
  ghost predicate Pads(part: string, text: string) {
    && ',' !in part && Tight(text)
    && exists l, r :: Blank(l) && Blank(r) && part == l + text + r
  }

  /**
   Reading a header: texts with any blanks around them and commas between them
   are its elements again.
   */
  lemma {:induction false} ElementsOfJoined(parts: seq<string>, texts: seq<string>)
    requires |parts| == |texts| > 0 && forall i :: 0 <= i < |parts| ==> Pads(parts[i], texts[i])
    ensures Elements(Joined(parts)) == texts
  {
    hide Pads, Trim;
    PaddedElement(parts[0], texts[0]);
    if |parts| == 1 {
      assert texts == [texts[0]];
    } else {
      ElementsOfJoined(parts[1..], texts[1..]);
      SplitConcat(parts[0], Joined(parts[1..]));
      TrimmedConcat(Split(parts[0]), Split(Joined(parts[1..])));
      assert texts == [texts[0]] + texts[1..];
    }
  }

  lemma PaddedElement(part: string, text: string)
    requires Pads(part, text)
    ensures Elements(part) == [text]
  {
    SplitPart(part);
    var l, r :| Blank(l) && Blank(r) && part == l + text + r;
    TrimIsExact(l, text, r);
  }

  lemma PrependConcat(c: char, a: seq<string>, b: seq<string>)
    requires |a| > 0
    ensures Prepend(c, a + b) == Prepend(c, a) + b
  {
    assert (a + b)[1..] == a[1..] + b;
  }

  lemma {:induction false} SplitConcat(left: string, right: string)
    ensures Split(left + "," + right) == Split(left) + Split(right)
  {
    var all := left + "," + right;
    if |left| == 0 {
      assert all == "," + right;
      assert all[1..] == right;
    } else {
      hide Prepend;
      SplitConcat(left[1..], right);
      assert all[1..] == left[1..] + "," + right;
      assert all[0] == left[0];
      PrependConcat(left[0], Split(left[1..]), Split(right));
      assert [""] + (Split(left[1..]) + Split(right)) == [""] + Split(left[1..]) + Split(right);
    }
  }

  lemma {:induction false} TrimmedConcat(a: seq<string>, b: seq<string>)
    ensures Trimmed(a + b) == Trimmed(a) + Trimmed(b)
  {
    if |a| == 0 {
      assert a + b == b;
    } else {
      TrimmedConcat(a[1..], b);
      assert (a + b)[1..] == a[1..] + b;
    }
  }

  lemma {:induction false} RightMostConcat(a: seq<string>, b: seq<string>, trusted: seq<TrustedProxy>, parse: Parser)
    requires forall p :: p in trusted ==> WellFormed(p)
    ensures RightMost(a + b, trusted, parse) ==
            if RightMost(b, trusted, parse).Some? then RightMost(b, trusted, parse) else RightMost(a, trusted, parse)
  {
    if |b| == 0 {
      assert a + b == a;
    } else {
      RightMostConcat(a, b[..|b| - 1], trusted, parse);
      assert (a + b)[..|a + b| - 1] == a + b[..|b| - 1];
    }
  }

  /** Whatever a client puts to the left of the element that decides cannot change the key. */
  lemma TextToTheLeftNeverMatters(
      peer: IpAddr, left: string, header: string, trusted: seq<TrustedProxy>, parse: Parser)
    requires forall p :: p in trusted ==> WellFormed(p)
    requires var elements := Elements(header);
             parse(elements[|elements| - 1]).None? || RightMost(elements, trusted, parse).Some?
    ensures ClientKey(Some(peer), Some(left + "," + header), trusted, parse) ==
            ClientKey(Some(peer), Some(header), trusted, parse)
  {
    hide RightMost;
    SplitConcat(left, header);
    TrimmedConcat(Split(left), Split(header));
    RightMostConcat(Elements(left), Elements(header), trusted, parse);
  }
}
