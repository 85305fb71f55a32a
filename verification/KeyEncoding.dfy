/** Byte order of the store keys: inverted timestamps, identity index keys, prefix ranges. */
module KeyEncoding {
  import opened Wrappers
  import opened GoStrings

  type Int64 = x: int | -0x8000_0000_0000_0000 <= x < 0x8000_0000_0000_0000

  const TWO64: int := 0x1_0000_0000_0000_0000

  // ---- Lexicographic order ----

  predicate Less(a: string, b: string)
  {
    b != "" && (a == "" || a[0] < b[0] || (a[0] == b[0] && Less(a[1..], b[1..])))
  }

  lemma {:induction false} LessTransitive(a: string, b: string, c: string)
    requires Less(a, b) && Less(b, c)
    ensures Less(a, c)
  {
    if a != "" && a[0] == b[0] == c[0] {
      LessTransitive(a[1..], b[1..], c[1..]);
    }
  }

  lemma {:induction false} LessIrreflexive(a: string)
    ensures !Less(a, a)
  {
    if a != "" {
      LessIrreflexive(a[1..]);
    }
  }

  lemma {:induction false} LessTotal(a: string, b: string)
    ensures Less(a, b) || a == b || Less(b, a)
  {
    if a != "" && b != "" && a[0] == b[0] {
      LessTotal(a[1..], b[1..]);
      assert a == [a[0]] + a[1..] && b == [b[0]] + b[1..];
    }
  }

  /** Strings with heads of one length compare by their heads first. */
  lemma {:induction false} LessByHeads(x: string, y: string, a: string, b: string)
    requires |x| == |y|
    ensures Less(x + a, y + b) <==> Less(x, y) || (x == y && Less(a, b))
  {
    if x == "" {
      assert x + a == a && y + b == b;
    } else {
      assert (x + a)[1..] == x[1..] + a && (y + b)[1..] == y[1..] + b;
      LessByHeads(x[1..], y[1..], a, b);
      assert x == [x[0]] + x[1..] && y == [y[0]] + y[1..];
    }
  }

  lemma LessAfterPrefix(p: string, a: string, b: string)
    ensures Less(p + a, p + b) <==> Less(a, b)
  {
    LessIrreflexive(p);
    LessByHeads(p, p, a, b);
  }

  // ---- Inverted timestamps ----

  const HEX: string := "0123456789abcdef"

  function Hex(n: nat, digits: nat): (r: string)
    ensures |r| == digits
  {
    if digits == 0 then "" else Hex(n / 16, digits - 1) + [HEX[n % 16]]
  }

  function Uint64(ts: Int64): (u: nat)
    ensures u < TWO64
  {
    if ts < 0 then ts + TWO64 else ts
  }

  /** The complement of the timestamp's 64-bit pattern as sixteen hexadecimal digits. */
  function InvertedTimestamp(ts: Int64): (r: string)
    ensures |r| == 16
  {
    Hex(TWO64 - 1 - Uint64(ts), 16)
  }

  function Pow16(k: nat): nat { if k == 0 then 1 else 16 * Pow16(k - 1) }

  lemma HexDigitOrder(a: nat, b: nat)
    requires a < 16 && b < 16
    ensures HEX[a] < HEX[b] <==> a < b
    ensures HEX[a] == HEX[b] <==> a == b
    ensures HEX[a] != ':'
  {
    var digits := [0, 1, 2, 3, 4, 5, 6, 7, 8, 9, 10, 11, 12, 13, 14, 15];
    assert HEX[a] as int == (if digits[a] < 10 then 48 + digits[a] else 87 + digits[a]);
    assert HEX[b] as int == (if digits[b] < 10 then 48 + digits[b] else 87 + digits[b]);
  }

  lemma {:induction false} HexOrder(a: nat, b: nat, k: nat)
    requires a < Pow16(k) && b < Pow16(k)
    ensures Less(Hex(a, k), Hex(b, k)) <==> a < b
    ensures Hex(a, k) == Hex(b, k) <==> a == b
  {
    if k > 0 {
      var x, y := Hex(a / 16, k - 1), Hex(b / 16, k - 1);
      var c, d := HEX[a % 16], HEX[b % 16];
      HexOrder(a / 16, b / 16, k - 1);
      HexDigitOrder(a % 16, b % 16);
      LessByHeads(x, y, [c], [d]);
      assert [c][1..] == "" && [d][1..] == "";
      if x + [c] == y + [d] {
        assert (x + [c])[..k - 1] == x && (y + [d])[..k - 1] == y;
        assert (x + [c])[k - 1] == c && (y + [d])[k - 1] == d;
      }
    }
  }

  lemma {:induction false} HexNoColon(n: nat, k: nat)
    ensures ':' !in Hex(n, k)
  {
    if k > 0 {
      HexNoColon(n / 16, k - 1);
      HexDigitOrder(n % 16, 0);
    }
  }

  lemma Pow16Of16()
    ensures Pow16(16) == TWO64
  {
    assert Pow16(4) == 0x1_0000;
    assert Pow16(8) == 0x1_0000_0000;
    assert Pow16(12) == 0x1_0000_0000_0000;
  }

  /** Keys order by the unsigned bit pattern, descending. */
  lemma InvertedOrder(a: Int64, b: Int64)
    ensures Less(InvertedTimestamp(a), InvertedTimestamp(b)) <==> Uint64(a) > Uint64(b)
    ensures InvertedTimestamp(a) == InvertedTimestamp(b) <==> a == b
    ensures ':' !in InvertedTimestamp(a)
  {
    hide Hex, Less, Pow16;
    Pow16Of16();
    HexOrder(TWO64 - 1 - Uint64(a), TWO64 - 1 - Uint64(b), 16);
    HexNoColon(TWO64 - 1 - Uint64(a), 16);
  }

  /** The inversion reverses the order of two different timestamps exactly when they have the same sign. */
  lemma InversionReversesIffSameSign(a: Int64, b: Int64)
    requires a != b
    ensures (Less(InvertedTimestamp(a), InvertedTimestamp(b)) <==> a > b) <==> ((a < 0) == (b < 0))
  {
    InvertedOrder(a, b);
  }

  // ---- Colon-separated keys ----

  predicate Plain(s: string) { ':' !in s }

  lemma ColonSplit(a: string, x: string, b: string, y: string)
    requires Plain(a) && Plain(b) && a + ":" + x == b + ":" + y
    ensures a == b && x == y
  {
    var s := a + ":" + x;
    assert s[|a|] == ':' && s[|b|] == ':';
    assert forall i :: 0 <= i < |a| ==> s[i] == a[i];
    assert forall i :: 0 <= i < |b| ==> s[i] == b[i];
    assert |a| == |b|;
    assert a == s[..|a|] && b == s[..|b|] && x == s[|a| + 1..] && y == s[|b| + 1..];
  }

  datatype Kind = ByGlobal | ByMetaId | ByAddress

  function KindName(kind: Kind): string
  {
    match kind
    case ByGlobal => "by_global"
    case ByMetaId => "by_metaid"
    case ByAddress => "by_address"
  }

  lemma KindNames(k: Kind, l: Kind)
    ensures Plain(KindName(k))
    ensures KindName(k) == KindName(l) <==> k == l
  {
    assert KindName(ByGlobal)[3] == 'g' && KindName(ByMetaId)[3] == 'm' && KindName(ByAddress)[3] == 'a';
  }

  function IndexPrefix(kind: Kind, protocol: string, identity: string): string
  {
    KindName(kind) + ":" + protocol + ":" + identity + ":"
  }

  function IndexKey(kind: Kind, protocol: string, identity: string, ts: Int64, chain: string, source: string): string
  {
    IndexPrefix(kind, protocol, identity) + InvertedTimestamp(ts) + ":" + chain + ":" + source
  }

  /** A prefix with colon-free parts only matches keys built from the same parts. */
  lemma PrefixParts(k: Kind, protocol: string, identity: string, k': Kind, protocol': string, identity': string,
                    x: string, y: string)
    requires Plain(protocol) && Plain(identity) && Plain(protocol') && Plain(identity')
    requires IndexPrefix(k, protocol, identity) + x == IndexPrefix(k', protocol', identity') + y
    ensures k == k' && protocol == protocol' && identity == identity' && x == y
  {
    hide KindName;
    KindNames(k, k');
    KindNames(k', k);
    var r, r' := identity + ":" + x, identity' + ":" + y;
    assert IndexPrefix(k, protocol, identity) + x == KindName(k) + ":" + (protocol + ":" + r);
    assert IndexPrefix(k', protocol', identity') + y == KindName(k') + ":" + (protocol' + ":" + r');
    ColonSplit(KindName(k), protocol + ":" + r, KindName(k'), protocol' + ":" + r');
    ColonSplit(protocol, r, protocol', r');
    ColonSplit(identity, x, identity', y);
  }

  /** The part of an index key after its prefix. */
  function KeyTail(ts: Int64, chain: string, source: string): string
  {
    InvertedTimestamp(ts) + (":" + (chain + ":" + source))
  }

  lemma KeyIsPrefixAndTail(kind: Kind, protocol: string, identity: string, ts: Int64, chain: string, source: string)
    ensures IndexKey(kind, protocol, identity, ts, chain, source) ==
            IndexPrefix(kind, protocol, identity) + KeyTail(ts, chain, source)
  {
    hide IndexPrefix, InvertedTimestamp;
    var p, i := IndexPrefix(kind, protocol, identity), InvertedTimestamp(ts);
    assert p + i + ":" + chain + ":" + source == p + (i + (":" + (chain + ":" + source)));
  }

  lemma TailInjective(ts: Int64, chain: string, source: string, ts': Int64, chain': string, source': string)
    requires Plain(chain) && Plain(chain')
    requires KeyTail(ts, chain, source) == KeyTail(ts', chain', source')
    ensures ts == ts' && chain == chain' && source == source'
  {
    hide InvertedTimestamp;
    var t, i, j := KeyTail(ts, chain, source), InvertedTimestamp(ts), InvertedTimestamp(ts');
    assert t[..16] == i && t[..16] == j;
    assert t[17..] == chain + ":" + source && t[17..] == chain' + ":" + source';
    InvertedOrder(ts, ts');
    ColonSplit(chain, source, chain', source');
  }

  /** Keys under one prefix order by the bit pattern of the timestamp first, descending, then by "chain:source". */
  lemma TailOrder(ts: Int64, chain: string, source: string, ts': Int64, chain': string, source': string)
    ensures Less(KeyTail(ts, chain, source), KeyTail(ts', chain', source')) <==>
            Uint64(ts) > Uint64(ts') || (ts == ts' && Less(chain + ":" + source, chain' + ":" + source'))
  {
    hide InvertedTimestamp;
    var a, b := chain + ":" + source, chain' + ":" + source';
    InvertedOrder(ts, ts');
    LessByHeads(InvertedTimestamp(ts), InvertedTimestamp(ts'), ":" + a, ":" + b);
    LessAfterPrefix(":", a, b);
  }

  // ---- Reading a key back ----

  /** Splits at the first colon. */
  function Cut(s: string): Option<(string, string)>
  {
    match Index(s, ':')
    case None => None
    case Some(i) => Some((s[..i], s[i + 1..]))
  }

  lemma CutOf(a: string, b: string)
    requires Plain(a)
    ensures Cut(a + ":" + b) == Some((a, b))
  {
    var s := a + ":" + b;
    assert s[|a|] == ':';
    var i := Index(s, ':').value;
    ColonSplit(a, b, s[..i], s[i + 1..]);
  }

  /** Chain and source of an index key whose prefix has been removed. */
  function ParseTail(rest: string): Option<(string, string)>
  {
    match Cut(rest)
    case None => None
    case Some((_, r)) => Cut(r)
  }

  lemma ParseOfTail(ts: Int64, chain: string, source: string)
    requires Plain(chain)
    ensures ParseTail(KeyTail(ts, chain, source)) == Some((chain, source))
  {
    hide InvertedTimestamp, Cut;
    InvertedOrder(ts, ts);
    assert KeyTail(ts, chain, source) == InvertedTimestamp(ts) + ":" + (chain + ":" + source);
    CutOf(InvertedTimestamp(ts), chain + ":" + source);
    CutOf(chain, source);
  }

  // ---- Prefix ranges ----

  /** Go strings are byte strings. */
  predicate IsBytes(s: string)
  {
    forall i :: 0 <= i < |s| ==> s[i] < 256 as char
  }

  /** The shortest string after every string with the prefix: the last byte below 255 goes up by one,
      the bytes after it go away. */
  function UpperBound(prefix: string): Option<string>
    requires IsBytes(prefix)
  {
    if prefix == "" then None
    else
      var n := |prefix| - 1;
      if prefix[n] as int == 255 then UpperBound(prefix[..n])
      else Some(prefix[..n] + [(prefix[n] as int + 1) as char])
  }

  method PrefixUpperBound(prefix: string) returns (r: Option<string>)
    requires IsBytes(prefix)
    ensures r == UpperBound(prefix)
  {
    var end := new char[|prefix|](i requires 0 <= i < |prefix| => prefix[i]);
    var i := |prefix|;
    assert prefix[..i] == prefix;
    while i > 0
      invariant 0 <= i <= |prefix|
      invariant UpperBound(prefix) == UpperBound(prefix[..i])
      invariant end[..i] == prefix[..i]
    {
      i := i - 1;
      assert prefix[..i + 1][..i] == prefix[..i] && end[i] == prefix[i];
      end[i] := ((end[i] as int + 1) % 256) as char;
      if end[i] != 0 as char {
        assert end[..i + 1] == prefix[..i] + [(prefix[i] as int + 1) as char];
        return Some(end[..i + 1]);
      }
    }
    r := None;
  }

  ghost predicate InRange(key: string, prefix: string)
    requires IsBytes(prefix)
  {
    !Less(key, prefix) && (UpperBound(prefix).None? || Less(key, UpperBound(prefix).value))
  }

  lemma {:induction false} UpperBoundUnfold(prefix: string)
    requires prefix != "" && IsBytes(prefix)
    ensures UpperBound(prefix) ==
            match UpperBound(prefix[1..])
            case Some(u) => Some([prefix[0]] + u)
            case None => if prefix[0] as int == 255 then None else Some([(prefix[0] as int + 1) as char])
  {
    var n := |prefix| - 1;
    if n > 0 {
      assert prefix[1..][..n - 1] == prefix[..n][1..];
      if prefix[n] as int == 255 {
        UpperBoundUnfold(prefix[..n]);
      } else {
        var next := [(prefix[n] as int + 1) as char];
        assert prefix[..n] + next == [prefix[0]] + (prefix[1..][..n - 1] + next);
      }
    } else {
      assert prefix[1..] == "" && prefix[..0] == "";
      if prefix[0] as int < 255 {
        assert "" + [(prefix[0] as int + 1) as char] == [(prefix[0] as int + 1) as char];
      }
    }
  }

  /** The scanned range holds exactly the keys that start with the prefix. */
  lemma {:induction false} RangeIsPrefix(key: string, prefix: string)
    requires IsBytes(key) && IsBytes(prefix)
    ensures InRange(key, prefix) <==> prefix <= key
  {
    if prefix == "" {
    } else if key == "" {
    } else {
      UpperBoundUnfold(prefix);
      RangeIsPrefix(key[1..], prefix[1..]);
      PrefixUnfold(key, prefix);
      match UpperBound(prefix[1..]) {
        case Some(u) =>
          assert ([prefix[0]] + u)[1..] == u;
        case None =>
          if prefix[0] as int < 255 {
            var next := (prefix[0] as int + 1) as char;
            assert [next][1..] == "" && !Less(key[1..], "");
            assert Less(key, [next]) <==> key[0] < next;
            assert key[0] < next <==> key[0] <= prefix[0];
          } else {
            assert key[0] <= prefix[0];
          }
      }
    }
  }

  lemma PrefixUnfold(key: string, prefix: string)
    requires key != "" && prefix != ""
    ensures prefix <= key <==> prefix[0] == key[0] && prefix[1..] <= key[1..]
  {
    if prefix[0] == key[0] && prefix[1..] <= key[1..] {
      forall j | 0 <= j < |prefix|
        ensures prefix[j] == key[j]
      {
        assert j == 0 || prefix[1..][j - 1] == key[1..][j - 1];
      }
    }
  }
}
