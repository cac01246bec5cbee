/** The names of the objects on a node: rule ids, which name sets, and tunnel names. */
module Names {
  import opened Net

  // ---- Decimal printing ----

  const DIGITS: string := "0123456789"

  function Itoa(n: nat): (s: string)
    ensures |s| >= 1
  {
    if n < 10 then [DIGITS[n]] else Itoa(n / 10) + [DIGITS[n % 10]]
  }

  lemma {:induction false} ItoaInjective(a: nat, b: nat)
    requires Itoa(a) == Itoa(b)
    ensures a == b
    decreases a
  {
    var s := Itoa(a);
    assert s[|s| - 1] == DIGITS[a % 10] == DIGITS[b % 10];
    assert a % 10 == b % 10;
    if a >= 10 && b >= 10 {
      assert Itoa(a / 10) == s[..|s| - 1] == Itoa(b / 10);
      ItoaInjective(a / 10, b / 10);
    }
  }

  lemma {:induction false} ItoaDigits(n: nat)
    ensures forall c | c in Itoa(n) :: c in DIGITS
    ensures n < 1000 ==> |Itoa(n)| <= 3
  {
    if n >= 10 {
      ItoaDigits(n / 10);
      if n < 1000 && n / 10 >= 10 {
        assert n / 10 / 10 < 10;
      }
    }
  }

  /** A text of digits read as a decimal number. */
  function Decimal(s: string): int {
    if s == "" then 0 else 10 * Decimal(s[..|s| - 1]) + (s[|s| - 1] as int - '0' as int)
  }

  /** Printing gives the decimal digits of the number, most significant first, without a leading zero. */
  lemma {:induction false} ItoaValue(n: nat)
    ensures Decimal(Itoa(n)) == n
    ensures forall c | c in Itoa(n) :: '0' <= c <= '9'
    ensures n >= 1 ==> Itoa(n)[0] != '0'
  {
    DigitValue(n % 10);
    if n < 10 {
      assert Itoa(n) == [DIGITS[n]] && Itoa(n)[..0] == "";
    } else {
      ItoaValue(n / 10);
      assert Itoa(n)[..|Itoa(n)| - 1] == Itoa(n / 10);
    }
  }

  lemma DigitValue(d: nat)
    requires d < 10
    ensures DIGITS[d] as int - '0' as int == d
  {
  }

  lemma PrefixCancels(a: string, x: string, y: string)
    ensures a + x == a + y <==> x == y
  {
    assert (a + x)[|a|..] == x && (a + y)[|a|..] == y;
  }

  // ---- Hash inputs ----

  /** Namespace, resource name and rule number, with nothing between them. */
  function Preimage(namespace_: string, name: string, ruleNo: nat): string {
    namespace_ + name + Itoa(ruleNo)
  }

  /** Within one resource different rule numbers give different hash inputs. */
  lemma RulesOfOneResource(ns: string, name: string, i: nat, j: nat)
    ensures Preimage(ns, name, i) == Preimage(ns, name, j) <==> i == j
  {
    PrefixCancels(ns + name, Itoa(i), Itoa(j));
    if Itoa(i) == Itoa(j) {
      ItoaInjective(i, j);
    }
  }

  /** Across resources two inputs coincide exactly when the longer resource name continues the
      shorter one with leading digits of the other's rule number. */
  lemma InputsCoincide(ns: string, name: string, i: nat, ns': string, name': string, j: nat)
    requires |ns + name| <= |ns' + name'|
    ensures Preimage(ns, name, i) == Preimage(ns', name', j)
       <==> exists t: string :: ns' + name' == ns + name + t && Itoa(i) == t + Itoa(j)
  {
    if Preimage(ns, name, i) == Preimage(ns', name', j) {
      var t := (ns' + name')[|ns + name|..];
      assert Preimage(ns, name, i)[..|ns + name|] == ns + name;
      assert Preimage(ns', name', j)[..|ns' + name'|] == ns' + name';
      assert (ns' + name')[..|ns + name|] == ns + name;
      assert ns' + name' == ns + name + t;
      assert ns' + name' + Itoa(j) == ns + name + (t + Itoa(j));
      PrefixCancels(ns + name, Itoa(i), t + Itoa(j));
    }
    if t: string :| ns' + name' == ns + name + t && Itoa(i) == t + Itoa(j) {
      assert ns + name + t + Itoa(j) == ns + name + (t + Itoa(j));
    }
  }

  /** They do coincide: rule 10*k + d of any resource and rule d of the one whose name goes on with k,
      such as rule 10 of `b` and rule 0 of `b1`; and resources whose namespace ends where the other's
      name begins. */
  lemma CollidingInputs(ns: string, name: string, k: nat, d: nat, t: string, i: nat)
    requires k >= 1 && d < 10
    ensures Preimage(ns, name, 10 * k + d) == Preimage(ns, name + Itoa(k), d)
    ensures Preimage(ns + t, name, i) == Preimage(ns, t + name, i)
    ensures Preimage(ns, "b", 10) == Preimage(ns, "b1", 0)
  {
    ItoaSnoc(k, d);
    TenAndZero();
    hide Itoa;
    assert ns + name + (Itoa(k) + Itoa(d)) == ns + (name + Itoa(k)) + Itoa(d);
    assert ns + t + name == ns + (t + name);
    assert ns + "b" + "10" == ns + "b1" + "0";
  }

  lemma ItoaSnoc(k: nat, d: nat)
    requires k >= 1 && d < 10
    ensures Itoa(10 * k + d) == Itoa(k) + Itoa(d)
  {
    assert (10 * k + d) / 10 == k && (10 * k + d) % 10 == d;
  }

  lemma TenAndZero()
    ensures Itoa(10) == "10" && Itoa(0) == "0"
  {
  }

  // ---- Base32, section 6 of RFC 4648 ----

  type Quintet = x: int | 0 <= x < 32

  /** The alphabet A to Z, 2 to 7. */
  function Letter(q: Quintet): char {
    if q < 26 then ('A' as int + q) as char else ('2' as int + q - 26) as char
  }

  /** Five bytes are eight groups of five bits. */
  function Split(b: seq<Byte>): (q: seq<Quintet>)
    requires |b| == 5
    ensures |q| == 8
  {
    var b0: Byte, b1: Byte, b2: Byte, b3: Byte, b4: Byte := b[0], b[1], b[2], b[3], b[4];
    [b0 / 8, b0 % 8 * 4 + b1 / 64, b1 / 2 % 32, b1 % 2 * 16 + b2 / 16,
     b2 % 16 * 2 + b3 / 128, b3 / 4 % 32, b3 % 4 * 8 + b4 / 32, b4 % 32]
  }

  function Join(q: seq<Quintet>): (b: seq<Byte>)
    requires |q| == 8
    ensures |b| == 5
  {
    var q0: Quintet, q1: Quintet, q2: Quintet, q3: Quintet := q[0], q[1], q[2], q[3];
    var q4: Quintet, q5: Quintet, q6: Quintet, q7: Quintet := q[4], q[5], q[6], q[7];
    [q0 * 8 + q1 / 4, q1 % 4 * 64 + q2 * 2 + q3 / 16, q3 % 16 * 16 + q4 / 2,
     q4 % 2 * 128 + q5 * 4 + q6 / 8, q6 % 8 * 32 + q7]
  }

  lemma JoinSplit(b: seq<Byte>)
    requires |b| == 5
    ensures Join(Split(b)) == b
  {
    var b0: Byte, b1: Byte, b2: Byte, b3: Byte, b4: Byte := b[0], b[1], b[2], b[3], b[4];
    Bits0(b0, b1);
    Bits1(b0, b1, b2);
    Bits2(b1, b2, b3);
    Bits3(b2, b3, b4);
    Bits4(b3, b4);
  }

  lemma Bits0(b0: Byte, b1: Byte)
    ensures b0 / 8 * 8 + (b0 % 8 * 4 + b1 / 64) / 4 == b0
  {
  }

  lemma Bits1(b0: Byte, b1: Byte, b2: Byte)
    ensures (b0 % 8 * 4 + b1 / 64) % 4 * 64 + b1 / 2 % 32 * 2 + (b1 % 2 * 16 + b2 / 16) / 16 == b1
  {
  }

  lemma Bits2(b1: Byte, b2: Byte, b3: Byte)
    ensures (b1 % 2 * 16 + b2 / 16) % 16 * 16 + (b2 % 16 * 2 + b3 / 128) / 2 == b2
  {
  }

  lemma Bits3(b2: Byte, b3: Byte, b4: Byte)
    ensures (b2 % 16 * 2 + b3 / 128) % 2 * 128 + b3 / 4 % 32 * 4 + (b3 % 4 * 8 + b4 / 32) / 8 == b3
  {
  }

  lemma Bits4(b3: Byte, b4: Byte)
    ensures (b3 % 4 * 8 + b4 / 32) % 8 * 32 + b4 % 32 == b4
  {
  }

  function Letters(q: seq<Quintet>): (s: string)
    ensures |s| == |q|
    ensures forall i | 0 <= i < |q| :: s[i] == Letter(q[i])
  {
    seq(|q|, i requires 0 <= i < |q| => Letter(q[i]))
  }

  function Padded(b: seq<Byte>): (r: seq<Byte>)
    requires |b| <= 5
    ensures |r| == 5
  {
    b + seq(5 - |b|, i => 0)
  }

  /** The characters a final group of 1 to 4 bytes fills; the rest is padding. */
  function CharsFilled(bytes: nat): (n: nat)
    ensures n <= 8
  {
    if bytes == 1 then 2 else if bytes == 2 then 4 else if bytes == 3 then 5 else if bytes == 4 then 7 else 8
  }

  function Padding(n: nat): (s: string)
    ensures |s| == n && forall c | c in s :: c == '='
  {
    seq(n, i => '=')
  }

  function Encode(b: seq<Byte>): string
    decreases |b|
  {
    if b == [] then ""
    else if |b| < 5 then Letters(Split(Padded(b)))[..CharsFilled(|b|)] + Padding(8 - CharsFilled(|b|))
    else Letters(Split(b[..5])) + Encode(b[5..])
  }

  lemma {:induction false} EncodeLength(b: seq<Byte>)
    ensures |Encode(b)| == (|b| + 4) / 5 * 8
    decreases |b|
  {
    if |b| >= 5 {
      EncodeLength(b[5..]);
    }
  }

  /** Eight characters without padding determine their five bytes. */
  lemma GroupInjective(a: seq<Byte>, b: seq<Byte>)
    requires |a| == |b| == 5
    ensures Letters(Split(a)) == Letters(Split(b)) <==> a == b
  {
    if Letters(Split(a)) == Letters(Split(b)) {
      forall i | 0 <= i < 8 ensures Split(a)[i] == Split(b)[i] {
        assert Letters(Split(a))[i] == Letters(Split(b))[i];
        assert Letter(Split(a)[i]) == Letter(Split(b)[i]);
      }
      assert Split(a) == Split(b);
      JoinSplit(a);
      JoinSplit(b);
    }
  }

  /** The value of a character of the alphabet. */
  function Digit32(c: char): int {
    if 'A' <= c <= 'Z' then c as int - 'A' as int else if '2' <= c <= '7' then c as int - '2' as int + 26 else -1
  }

  function Value32(s: string): int {
    if s == "" then 0 else 32 * Value32(s[..|s| - 1]) + Digit32(s[|s| - 1])
  }

  function Value256(b: seq<Byte>): int {
    if b == [] then 0 else 256 * Value256(b[..|b| - 1]) + (b[|b| - 1] as int)
  }

  ghost predicate InAlphabet(s: string) {
    forall c | c in s :: 'A' <= c <= 'Z' || '2' <= c <= '7'
  }

  /** The eight characters of a group, read in base 32, are its five bytes, read in base 256. */
  lemma GroupValue(b: seq<Byte>)
    requires |b| == 5
    ensures Value32(Letters(Split(b))) == Value256(b) && InAlphabet(Letters(Split(b)))
  {
    var q, s := Split(b), Letters(Split(b));
    forall i | 0 <= i < 8 ensures Digit32(s[i]) == q[i] && ('A' <= s[i] <= 'Z' || '2' <= s[i] <= '7') {
      LetterValue(q[i]);
    }
    EightDigits(s);
    FiveBytes(b);
    ByteParts(b[0], b[1], b[2], b[3], b[4]);
  }

  lemma LetterValue(q: Quintet)
    ensures Digit32(Letter(q)) == q && ('A' <= Letter(q) <= 'Z' || '2' <= Letter(q) <= '7')
  {
  }

  lemma EightDigits(s: string)
    requires |s| == 8
    ensures Value32(s)
         == 32 * (32 * (32 * (32 * (32 * (32 * (32 * Digit32(s[0]) + Digit32(s[1])) + Digit32(s[2])) + Digit32(s[3]))
            + Digit32(s[4])) + Digit32(s[5])) + Digit32(s[6])) + Digit32(s[7])
  {
    hide Digit32;
    forall i | 0 < i <= 8 ensures s[..i][..i - 1] == s[..i - 1] && s[..i][i - 1] == s[i - 1] {
    }
    assert s[..8] == s;
    assert Value32(s[..1]) == Digit32(s[0]);
    assert Value32(s[..2]) == 32 * Value32(s[..1]) + Digit32(s[1]);
    assert Value32(s[..3]) == 32 * Value32(s[..2]) + Digit32(s[2]);
    assert Value32(s[..4]) == 32 * Value32(s[..3]) + Digit32(s[3]);
    assert Value32(s[..5]) == 32 * Value32(s[..4]) + Digit32(s[4]);
    assert Value32(s[..6]) == 32 * Value32(s[..5]) + Digit32(s[5]);
    assert Value32(s[..7]) == 32 * Value32(s[..6]) + Digit32(s[6]);
  }

  lemma FiveBytes(b: seq<Byte>)
    requires |b| == 5
    ensures Value256(b)
        == 256 * (256 * (256 * (256 * b[0] as int + b[1] as int) + b[2] as int) + b[3] as int) + b[4] as int
  {
    forall i | 0 < i <= 5 ensures b[..i][..i - 1] == b[..i - 1] && b[..i][i - 1] == b[i - 1] {
    }
    assert b[..5] == b;
    assert Value256(b[..1]) == b[0] as int;
    assert Value256(b[..2]) == 256 * Value256(b[..1]) + b[1] as int;
    assert Value256(b[..3]) == 256 * Value256(b[..2]) + b[2] as int;
    assert Value256(b[..4]) == 256 * Value256(b[..3]) + b[3] as int;
  }

  /** The bytes, cut where the groups of five bits end. */
  lemma ByteParts(b0: Byte, b1: Byte, b2: Byte, b3: Byte, b4: Byte)
    ensures b0 == b0 / 8 * 8 + b0 % 8
    ensures b1 == b1 / 64 * 64 + b1 / 2 % 32 * 2 + b1 % 2
    ensures b2 == b2 / 16 * 16 + b2 % 16
    ensures b3 == b3 / 128 * 128 + b3 / 4 % 32 * 4 + b3 % 4
    ensures b4 == b4 / 32 * 32 + b4 % 32
  {
  }

  lemma LettersOf(q: seq<Quintet>, s: string)
    requires |s| <= |q| && forall i | 0 <= i < |s| :: Digit32(s[i]) == q[i]
    ensures Letters(q)[..|s|] == s
  {
    forall i | 0 <= i < |s| ensures Letters(q)[i] == s[i] {
      LetterOfValue(s[i]);
    }
  }

  lemma PaddingOf(s: string)
    requires forall i | 0 <= i < |s| :: s[i] == '='
    ensures Padding(|s|) == s
  {
  }

  /** A short text by the values of its characters. */
  lemma ShortText(b: seq<Byte>, s: string)
    requires 1 <= |b| < 5 && |s| == 8
    requires forall i | 0 <= i < CharsFilled(|b|) :: Digit32(s[i]) == Split(Padded(b))[i]
    requires forall i | CharsFilled(|b|) <= i < 8 :: s[i] == '='
    ensures Encode(b) == s
  {
    hide Encode, Split, Padded, Letters, CharsFilled, Padding, Digit32;
    EncodeShort(b);
    var n := CharsFilled(|b|);
    LettersOf(Split(Padded(b)), s[..n]);
    PaddingOf(s[n..]);
    assert s == s[..n] + s[n..];
  }

  lemma EncodeShort(b: seq<Byte>)
    requires 1 <= |b| < 5
    ensures Encode(b) == Letters(Split(Padded(b)))[..CharsFilled(|b|)] + Padding(8 - CharsFilled(|b|))
  {
  }

  lemma FullText(b: seq<Byte>, s: string, rest: seq<Byte>)
    requires |b| == 5 && |s| == 8 && forall i | 0 <= i < 8 :: Digit32(s[i]) == Split(b)[i]
    ensures Encode(b + rest) == s + Encode(rest)
  {
    LettersOf(Split(b), s);
    assert (b + rest)[..5] == b && (b + rest)[5..] == rest;
  }

  lemma LetterOfValue(c: char)
    requires 0 <= Digit32(c) < 32
    ensures Letter(Digit32(c)) == c
  {
  }

  lemma OneByte()
    ensures Encode([102]) == "MY======"
  {
    hide Encode;
    ShortText([102], "MY======");
  }

  lemma TwoBytes()
    ensures Encode([102, 111]) == "MZXQ===="
  {
    hide Encode;
    ShortText([102, 111], "MZXQ====");
  }

  lemma ThreeBytes()
    ensures Encode([102, 111, 111]) == "MZXW6==="
  {
    hide Encode;
    ShortText([102, 111, 111], "MZXW6===");
  }

  lemma FourBytes()
    ensures Encode([102, 111, 111, 98]) == "MZXW6YQ="
  {
    hide Encode;
    ShortText([102, 111, 111, 98], "MZXW6YQ=");
  }

  /** The test vectors of section 10 of RFC 4648: the beginnings of "foobar". */
  lemma TestVectors()
    ensures Encode([]) == ""
    ensures Encode([102]) == "MY======"
    ensures Encode([102, 111]) == "MZXQ===="
    ensures Encode([102, 111, 111]) == "MZXW6==="
    ensures Encode([102, 111, 111, 98]) == "MZXW6YQ="
    ensures Encode([102, 111, 111, 98, 97]) == "MZXW6YTB"
    ensures Encode([102, 111, 111, 98, 97, 114]) == "MZXW6YTBOI======"
  {
    hide Encode;
    OneByte();
    TwoBytes();
    ThreeBytes();
    FourBytes();
    ShortText([114], "OI======");
    EmptyText();
    FullText([102, 111, 111, 98, 97], "MZXW6YTB", []);
    FullText([102, 111, 111, 98, 97], "MZXW6YTB", [114]);
    assert [102, 111, 111, 98, 97] + [] == [102, 111, 111, 98, 97];
    assert [102, 111, 111, 98, 97] + [114] == [102, 111, 111, 98, 97, 114];
  }

  lemma EmptyText()
    ensures Encode([]) == ""
  {
  }

  // ---- Rule ids ----

  /** The result of the hash function, which is left open. */
  type Digest = h: seq<Byte> | |h| == 32 witness seq(32, i => 0)

  function GenerateRuleId(sha: string -> Digest, ns: string, name: string, ruleNo: nat): string {
    var encoded := Encode(sha(Preimage(ns, name, ruleNo)));
    EncodeLength(sha(Preimage(ns, name, ruleNo)));
    "EGRESS-IP-" + encoded[..16]
  }

  /** The first 16 characters encode the first ten bytes. */
  lemma EncodePrefix(h: seq<Byte>)
    requires |h| >= 10
    ensures |Encode(h)| >= 16
    ensures Encode(h)[..16] == Letters(Split(h[..5])) + Letters(Split(h[5..10]))
  {
    assert h[5..][..5] == h[5..10];
    var first, second := Letters(Split(h[..5])), Letters(Split(h[5..10]));
    assert Encode(h[5..]) == second + Encode(h[5..][5..]);
    assert Encode(h) == first + (second + Encode(h[5..][5..]));
    assert first + (second + Encode(h[5..][5..])) == first + second + Encode(h[5..][5..]);
  }

  /** The text is 56 characters long, the id 26 without padding, and the temporary set of a refresh
      has the longest name a set can have, 31. */
  lemma RuleIdShape(sha: string -> Digest, ns: string, name: string, ruleNo: nat)
    ensures |Encode(sha(Preimage(ns, name, ruleNo)))| == 56
    ensures var id := GenerateRuleId(sha, ns, name, ruleNo);
            |id| == 26 && '=' !in id && |id + "-temp"| == 31
  {
    var h := sha(Preimage(ns, name, ruleNo));
    EncodeLength(h);
    EncodePrefix(h);
    var id := GenerateRuleId(sha, ns, name, ruleNo);
    forall i | 0 <= i < 26 ensures id[i] != '=' {
      if i >= 18 {
        assert id[i] == Letters(Split(h[5..10]))[i - 18];
      } else if i >= 10 {
        assert id[i] == Letters(Split(h[..5]))[i - 10];
      }
    }
  }

  /** Behind its prefix the id has the first ten bytes of the hash, in two groups of eight characters. */
  lemma RuleIdValue(sha: string -> Digest, ns: string, name: string, ruleNo: nat)
    ensures var id, h := GenerateRuleId(sha, ns, name, ruleNo), sha(Preimage(ns, name, ruleNo));
            && |id| == 26 && id[..10] == "EGRESS-IP-" && InAlphabet(id[10..])
            && Value32(id[10..18]) == Value256(h[..5]) && Value32(id[18..]) == Value256(h[5..10])
  {
    hide Value32, Value256, Split, Letters, Encode;
    var id, h := GenerateRuleId(sha, ns, name, ruleNo), sha(Preimage(ns, name, ruleNo));
    EncodePrefix(h);
    var first, second := Letters(Split(h[..5])), Letters(Split(h[5..10]));
    assert id[10..] == first + second && id[10..18] == first && id[18..] == second;
    GroupValue(h[..5]);
    GroupValue(h[5..10]);
  }

  /** Two ids are equal exactly when the first ten bytes of the hashes are. */
  lemma RuleIdsEqual(sha: string -> Digest, ns: string, name: string, i: nat, ns': string, name': string, j: nat)
    ensures GenerateRuleId(sha, ns, name, i) == GenerateRuleId(sha, ns', name', j)
       <==> sha(Preimage(ns, name, i))[..10] == sha(Preimage(ns', name', j))[..10]
  {
    var a, b := sha(Preimage(ns, name, i)), sha(Preimage(ns', name', j));
    EncodePrefix(a);
    EncodePrefix(b);
    EncodeLength(a);
    EncodeLength(b);
    PrefixCancels("EGRESS-IP-", Encode(a)[..16], Encode(b)[..16]);
    GroupInjective(a[..5], b[..5]);
    GroupInjective(a[5..10], b[5..10]);
    var a0, a1 := Letters(Split(a[..5])), Letters(Split(a[5..10]));
    var b0, b1 := Letters(Split(b[..5])), Letters(Split(b[5..10]));
    if a0 + a1 == b0 + b1 {
      assert a0 == (a0 + a1)[..8] && b0 == (b0 + b1)[..8];
      assert a1 == (a0 + a1)[8..] && b1 == (b0 + b1)[8..];
    }
    assert a[..10] == a[..5] + a[5..10] && b[..10] == b[..5] + b[5..10];
    if a[..10] == b[..10] {
      assert a[..5] == a[..10][..5] && a[5..10] == a[..10][5..];
      assert b[..5] == b[..10][..5] && b[5..10] == b[..10][5..];
    }
  }

  // ---- Tunnel names ----

  function WithoutDots(s: string): string {
    if s == "" then "" else (if s[0] == '.' then "" else [s[0]]) + WithoutDots(s[1..])
  }

  function TunnelName(address: string): string {
    "tun" + WithoutDots(address)
  }

  function Dotted(a: Byte, b: Byte, c: Byte, d: Byte): string {
    Itoa(a) + "." + Itoa(b) + "." + Itoa(c) + "." + Itoa(d)
  }

  lemma {:induction false} WithoutDotsConcat(s: string, t: string)
    ensures WithoutDots(s + t) == WithoutDots(s) + WithoutDots(t)
  {
    if s == "" {
      assert s + t == t;
    } else {
      assert (s + t)[1..] == s[1..] + t;
      WithoutDotsConcat(s[1..], t);
    }
  }

  lemma {:induction false} NoDots(s: string)
    requires forall c | c in s :: c in DIGITS
    ensures WithoutDots(s) == s
  {
    if s != "" {
      assert s == [s[0]] + s[1..];
      assert '.' !in DIGITS;
      NoDots(s[1..]);
    }
  }

  lemma NextOctet(s: string, n: nat)
    ensures WithoutDots(s + "." + Itoa(n)) == WithoutDots(s) + Itoa(n)
  {
    hide Itoa, WithoutDots;
    ItoaDigits(n);
    NoDots(Itoa(n));
    WithoutDotsConcat(s + ".", Itoa(n));
    WithoutDotsConcat(s, ".");
    OnlyDot();
    assert WithoutDots(s) + "" == WithoutDots(s);
  }

  lemma OnlyDot()
    ensures WithoutDots(".") == ""
  {
  }

  lemma DottedTunnel(a: Byte, b: Byte, c: Byte, d: Byte)
    ensures TunnelName(Dotted(a, b, c, d)) == "tun" + Itoa(a) + Itoa(b) + Itoa(c) + Itoa(d)
  {
    hide Itoa, WithoutDots;
    ItoaDigits(a);
    NoDots(Itoa(a));
    NextOctet(Itoa(a), b);
    NextOctet(Itoa(a) + "." + Itoa(b), c);
    NextOctet(Itoa(a) + "." + Itoa(b) + "." + Itoa(c), d);
    assert "tun" + (Itoa(a) + Itoa(b) + Itoa(c) + Itoa(d)) == "tun" + Itoa(a) + Itoa(b) + Itoa(c) + Itoa(d);
  }

  /** Every tunnel name fits an interface name, at most 15 characters. */
  lemma TunnelNameFits(a: Byte, b: Byte, c: Byte, d: Byte)
    ensures 7 <= |TunnelName(Dotted(a, b, c, d))| <= 15
  {
    DottedTunnel(a, b, c, d);
    ItoaDigits(a); ItoaDigits(b); ItoaDigits(c); ItoaDigits(d);
  }

  lemma SuffixCancels(x: string, y: string, b: string)
    ensures x + b == y + b <==> x == y
  {
    if x + b == y + b {
      assert |x| == |y|;
      assert x == (x + b)[..|x|] && y == (y + b)[..|y|];
    }
  }

  /** A tunnel name, cut around any one of its numbers and around any two that are neighbours. */
  lemma TunnelParts(a: Byte, b: Byte, c: Byte, d: Byte)
    ensures var name := TunnelName(Dotted(a, b, c, d));
            && name == "tun" + Itoa(a) + (Itoa(b) + Itoa(c) + Itoa(d))
            && name == "tun" + Itoa(a) + Itoa(b) + (Itoa(c) + Itoa(d))
            && name == "tun" + Itoa(a) + Itoa(b) + Itoa(c) + Itoa(d)
            && name == "tun" + (Itoa(a) + Itoa(b)) + (Itoa(c) + Itoa(d))
            && name == "tun" + Itoa(a) + (Itoa(b) + Itoa(c)) + Itoa(d)
            && name == "tun" + Itoa(a) + Itoa(b) + (Itoa(c) + Itoa(d))
  {
    DottedTunnel(a, b, c, d);
    Regroup("tun", Itoa(a), Itoa(b), Itoa(c), Itoa(d));
  }

  lemma Regroup(t: string, a: string, b: string, c: string, d: string)
    ensures t + a + b + c + d == t + a + (b + c + d) == t + a + b + (c + d)
    ensures t + a + b + c + d == t + (a + b) + (c + d) == t + a + (b + c) + d
  {
  }

  lemma NumberBetween(front: string, x: Byte, y: Byte, back: string)
    ensures front + Itoa(x) + back == front + Itoa(y) + back <==> x == y
  {
    SuffixCancels(front + Itoa(x), front + Itoa(y), back);
    PrefixCancels(front, Itoa(x), Itoa(y));
    if Itoa(x) == Itoa(y) {
      ItoaInjective(x, y);
    }
  }

  /** Addresses that differ in at most one octet, whichever it is, have one tunnel name if and only if they are
      equal; so nodes of one /24 get different tunnels. */
  lemma TunnelNamesOneOctet(a: Byte, b: Byte, c: Byte, d: Byte, e: Byte)
    ensures TunnelName(Dotted(a, b, c, d)) == TunnelName(Dotted(e, b, c, d)) <==> a == e
    ensures TunnelName(Dotted(a, b, c, d)) == TunnelName(Dotted(a, e, c, d)) <==> b == e
    ensures TunnelName(Dotted(a, b, c, d)) == TunnelName(Dotted(a, b, e, d)) <==> c == e
    ensures TunnelName(Dotted(a, b, c, d)) == TunnelName(Dotted(a, b, c, e)) <==> d == e
  {
    hide Itoa, TunnelName, Dotted;
    TunnelParts(a, b, c, d);
    TunnelParts(e, b, c, d);
    TunnelParts(a, e, c, d);
    TunnelParts(a, b, e, d);
    TunnelParts(a, b, c, e);
    NumberBetween("tun", a, e, Itoa(b) + Itoa(c) + Itoa(d));
    NumberBetween("tun" + Itoa(a), b, e, Itoa(c) + Itoa(d));
    NumberBetween("tun" + Itoa(a) + Itoa(b), c, e, Itoa(d));
    NumberBetween("tun" + Itoa(a) + Itoa(b) + Itoa(c), d, e, "");
    var front := "tun" + Itoa(a) + Itoa(b) + Itoa(c);
    assert front + Itoa(d) + "" == front + Itoa(d) && front + Itoa(e) + "" == front + Itoa(e);
  }

  /** The second pair's first number goes on with leading digits of the first pair's second number. */
  ghost predicate Shifted(x: nat, y: nat, x': nat, y': nat) {
    exists t: string :: Itoa(x') == Itoa(x) + t && Itoa(y) == t + Itoa(y')
  }

  /** Two numbers printed one behind the other look like two others exactly when one pair is the other with
      digits shifted from the second number to the first. */
  lemma PairsCoincide(x: nat, y: nat, x': nat, y': nat)
    ensures Itoa(x) + Itoa(y) == Itoa(x') + Itoa(y') <==> Shifted(x, y, x', y') || Shifted(x', y', x, y)
  {
    hide Itoa;
    if Itoa(x) + Itoa(y) == Itoa(x') + Itoa(y') {
      if |Itoa(x)| <= |Itoa(x')| {
        LongerFirst(x, y, x', y');
      } else {
        LongerFirst(x', y', x, y);
      }
    }
    if t: string :| Itoa(x') == Itoa(x) + t && Itoa(y) == t + Itoa(y') {
      assert Itoa(x) + t + Itoa(y') == Itoa(x) + (t + Itoa(y'));
    }
    if t: string :| Itoa(x) == Itoa(x') + t && Itoa(y') == t + Itoa(y) {
      assert Itoa(x') + t + Itoa(y) == Itoa(x') + (t + Itoa(y));
    }
  }

  lemma LongerFirst(x: nat, y: nat, x': nat, y': nat)
    requires Itoa(x) + Itoa(y) == Itoa(x') + Itoa(y') && |Itoa(x)| <= |Itoa(x')|
    ensures Shifted(x, y, x', y')
  {
    hide Itoa;
    var t := Overhang(Itoa(x), Itoa(y), Itoa(x'), Itoa(y'));
    assert Itoa(x') == Itoa(x) + t;
  }

  lemma Overhang(x: string, y: string, x': string, y': string) returns (t: string)
    requires x + y == x' + y' && |x| <= |x'|
    ensures x' == x + t && y == t + y'
  {
    t := x'[|x|..];
    assert x == (x + y)[..|x|] && x'[..|x|] == (x' + y')[..|x|];
    assert y == (x + y)[|x|..] && t + y' == (x' + y')[|x|..];
  }

  lemma PairBetween(front: string, x: nat, y: nat, x': nat, y': nat, back: string)
    ensures front + (Itoa(x) + Itoa(y)) + back == front + (Itoa(x') + Itoa(y')) + back
       <==> Shifted(x, y, x', y') || Shifted(x', y', x, y)
  {
    hide Itoa, Shifted;
    SuffixCancels(front + (Itoa(x) + Itoa(y)), front + (Itoa(x') + Itoa(y')), back);
    PrefixCancels(front, Itoa(x) + Itoa(y), Itoa(x') + Itoa(y'));
    PairsCoincide(x, y, x', y');
  }

  /** Addresses that differ in two neighbouring octets at most, as all those of one /16 do, have one tunnel
      name if and only if digits have shifted between the two octets. */
  lemma TunnelNamesTwoOctets(a: Byte, b: Byte, c: Byte, d: Byte, x: Byte, y: Byte)
    ensures TunnelName(Dotted(a, b, c, d)) == TunnelName(Dotted(x, y, c, d)) <==>
        Shifted(a, b, x, y) || Shifted(x, y, a, b)
    ensures TunnelName(Dotted(a, b, c, d)) == TunnelName(Dotted(a, x, y, d)) <==>
        Shifted(b, c, x, y) || Shifted(x, y, b, c)
    ensures TunnelName(Dotted(a, b, c, d)) == TunnelName(Dotted(a, b, x, y)) <==>
        Shifted(c, d, x, y) || Shifted(x, y, c, d)
  {
    hide Itoa, TunnelName, Dotted, Shifted;
    TunnelParts(a, b, c, d);
    TunnelParts(x, y, c, d);
    TunnelParts(a, x, y, d);
    TunnelParts(a, b, x, y);
    PairBetween("tun", a, b, x, y, Itoa(c) + Itoa(d));
    PairBetween("tun" + Itoa(a), b, c, x, y, Itoa(d));
    PairBetween("tun" + Itoa(a) + Itoa(b), c, d, x, y, "");
    var front := "tun" + Itoa(a) + Itoa(b);
    assert front + (Itoa(c) + Itoa(d)) + "" == front + (Itoa(c) + Itoa(d));
    assert front + (Itoa(x) + Itoa(y)) + "" == front + (Itoa(x) + Itoa(y));
  }

  // ---- Any two addresses ----

  function Joined(xs: seq<string>): string
    decreases |xs|
  {
    if xs == [] then "" else Joined(xs[..|xs| - 1]) + xs[|xs| - 1]
  }

  /** The digits by which one of two texts is ahead of the other behind equally many numbers. */
  datatype Lead = Lead(first: string, second: string)

  /** Digits shift over the boundaries between the numbers: each number of the first text, behind the digits by
      which that is ahead, ends with those by which the other will be, as it does the other way round. */
  ghost predicate Fits(xs: seq<string>, ys: seq<string>, leads: seq<Lead>) {
    && |xs| == |ys| && |leads| == |xs| + 1 && leads[0] == leads[|xs|] == Lead("", "")
    && (forall i | 0 <= i < |leads| :: leads[i].first == "" || leads[i].second == "")
    && forall i | 0 <= i < |xs| ::
         leads[i].first + xs[i] + leads[i + 1].second == leads[i].second + ys[i] + leads[i + 1].first
  }

  /** The lead of two texts of which one begins with the other. */
  function LeadOf(x: string, y: string): Lead {
    if |x| <= |y| then Lead("", y[|x|..]) else Lead(x[|y|..], "")
  }

  lemma LeadOfPrefixes(x: string, y: string, all: string)
    requires x <= all && y <= all
    ensures x + LeadOf(x, y).second == y + LeadOf(x, y).first
  {
    assert x == all[..|x|] && y == all[..|y|];
    if |x| <= |y| {
      assert y == all[..|y|][..|x|] + y[|x|..];
    } else {
      assert x == all[..|x|][..|y|] + x[|y|..];
    }
  }

  /** One more number on both sides. */
  lemma NextLead(x: string, y: string, l: Lead, a: string, b: string, m: Lead)
    requires (l.first == "" || l.second == "") && x + l.second == y + l.first
    ensures x + a + m.second == y + b + m.first <==> l.first + a + m.second == l.second + b + m.first
  {
    if l.first == "" {
      assert y == x + l.second;
      assert x + a + m.second == x + (l.first + a + m.second);
      assert y + b + m.first == x + (l.second + b + m.first);
      PrefixCancels(x, l.first + a + m.second, l.second + b + m.first);
    } else {
      assert x == y + l.first;
      assert x + a + m.second == y + (l.first + a + m.second);
      assert y + b + m.first == y + (l.second + b + m.first);
      PrefixCancels(y, l.first + a + m.second, l.second + b + m.first);
    }
  }

  lemma {:induction false} FitsJoins(xs: seq<string>, ys: seq<string>, leads: seq<Lead>, n: nat)
    requires Fits(xs, ys, leads) && n <= |xs|
    ensures Joined(xs[..n]) + leads[n].second == Joined(ys[..n]) + leads[n].first
    decreases n
  {
    if n > 0 {
      FitsJoins(xs, ys, leads, n - 1);
      assert xs[..n][..n - 1] == xs[..n - 1] && ys[..n][..n - 1] == ys[..n - 1];
      NextLead(Joined(xs[..n - 1]), Joined(ys[..n - 1]), leads[n - 1], xs[n - 1], ys[n - 1], leads[n]);
    }
  }

  lemma {:induction false} JoinedPrefix(xs: seq<string>, n: nat)
    requires n <= |xs|
    ensures Joined(xs[..n]) <= Joined(xs)
    decreases |xs| - n
  {
    if n == |xs| {
      assert xs[..n] == xs;
    } else {
      JoinedPrefix(xs, n + 1);
      assert xs[..n + 1][..n] == xs[..n];
    }
  }

  function LeadsOf(xs: seq<string>, ys: seq<string>): (leads: seq<Lead>)
    requires |xs| == |ys|
    ensures |leads| == |xs| + 1
    ensures forall i | 0 <= i <= |xs| :: leads[i] == LeadOf(Joined(xs[..i]), Joined(ys[..i]))
  {
    seq(|xs| + 1, i requires 0 <= i <= |xs| => LeadOf(Joined(xs[..i]), Joined(ys[..i])))
  }

  lemma JoinsFit(xs: seq<string>, ys: seq<string>)
    requires |xs| == |ys| && Joined(xs) == Joined(ys)
    ensures Fits(xs, ys, LeadsOf(xs, ys))
  {
    hide LeadOf;
    var leads := LeadsOf(xs, ys);
    assert xs[..0] == [] && ys[..0] == [] && xs[..|xs|] == xs && ys[..|ys|] == ys;
    NoLead("");
    NoLead(Joined(xs));
    forall i | 0 <= i < |xs|
      ensures leads[i].first + xs[i] + leads[i + 1].second == leads[i].second + ys[i] + leads[i + 1].first
    {
      OneLead(xs, ys, i);
    }
    forall i | 0 <= i < |leads| ensures leads[i].first == "" || leads[i].second == "" {
      OneSided(Joined(xs[..i]), Joined(ys[..i]));
    }
  }

  lemma NoLead(x: string)
    ensures LeadOf(x, x) == Lead("", "")
  {
  }

  lemma OneSided(x: string, y: string)
    ensures LeadOf(x, y).first == "" || LeadOf(x, y).second == ""
  {
  }

  lemma OneLead(xs: seq<string>, ys: seq<string>, i: nat)
    requires |xs| == |ys| && Joined(xs) == Joined(ys) && i < |xs|
    ensures var l, m := LeadOf(Joined(xs[..i]), Joined(ys[..i])), LeadOf(Joined(xs[..i + 1]), Joined(ys[..i + 1]));
            l.first + xs[i] + m.second == l.second + ys[i] + m.first
  {
    hide LeadOf;
    JoinedPrefix(xs, i);
    JoinedPrefix(ys, i);
    JoinedPrefix(xs, i + 1);
    JoinedPrefix(ys, i + 1);
    var x, y := Joined(xs[..i]), Joined(ys[..i]);
    assert xs[..i + 1][..i] == xs[..i] && ys[..i + 1][..i] == ys[..i];
    LeadOfPrefixes(x, y, Joined(xs));
    LeadOfPrefixes(Joined(xs[..i + 1]), Joined(ys[..i + 1]), Joined(xs));
    OneSided(x, y);
    NextLead(x, y, LeadOf(x, y), xs[i], ys[i], LeadOf(Joined(xs[..i + 1]), Joined(ys[..i + 1])));
  }

  function Numbers(a: Byte, b: Byte, c: Byte, d: Byte): seq<string> {
    [Itoa(a), Itoa(b), Itoa(c), Itoa(d)]
  }

  lemma JoinedNumbers(a: string, b: string, c: string, d: string)
    ensures Joined([a, b, c, d]) == a + b + c + d
  {
    var all := [a, b, c, d];
    assert all[..3] == [a, b, c] && [a, b, c][..2] == [a, b] && [a, b][..1] == [a] && [a][..0] == [];
    assert Joined([a]) == "" + a == a;
    assert Joined([a, b]) == a + b;
    assert Joined([a, b, c]) == a + b + c;
  }

  /** Any two addresses have one tunnel name if and only if digits can shift over the three boundaries so that
      each octet of the one becomes that of the other. */
  lemma TunnelNamesCoincide(a: Byte, b: Byte, c: Byte, d: Byte, a': Byte, b': Byte, c': Byte, d': Byte)
    ensures TunnelName(Dotted(a, b, c, d)) == TunnelName(Dotted(a', b', c', d'))
       <==> exists leads :: Fits(Numbers(a, b, c, d), Numbers(a', b', c', d'), leads)
  {
    hide Itoa, TunnelName, Dotted, Joined, Fits;
    var xs, ys := Numbers(a, b, c, d), Numbers(a', b', c', d');
    NameOfNumbers(a, b, c, d);
    NameOfNumbers(a', b', c', d');
    PrefixCancels("tun", Joined(xs), Joined(ys));
    if Joined(xs) == Joined(ys) {
      JoinsFit(xs, ys);
    }
    if leads :| Fits(xs, ys, leads) {
      FitsJoin(xs, ys, leads);
    }
  }

  lemma FitsJoin(xs: seq<string>, ys: seq<string>, leads: seq<Lead>)
    requires Fits(xs, ys, leads)
    ensures Joined(xs) == Joined(ys)
  {
    FitsJoins(xs, ys, leads, |xs|);
    assert xs[..|xs|] == xs && ys[..|ys|] == ys;
    assert Joined(xs) + "" == Joined(xs) && Joined(ys) + "" == Joined(ys);
  }

  lemma NameOfNumbers(a: Byte, b: Byte, c: Byte, d: Byte)
    ensures TunnelName(Dotted(a, b, c, d)) == "tun" + Joined(Numbers(a, b, c, d))
  {
    hide Itoa, TunnelName, Dotted, Joined;
    DottedTunnel(a, b, c, d);
    JoinedNumbers(Itoa(a), Itoa(b), Itoa(c), Itoa(d));
    Regrouped("tun", Itoa(a), Itoa(b), Itoa(c), Itoa(d));
  }

  lemma Regrouped(t: string, a: string, b: string, c: string, d: string)
    ensures t + a + b + c + d == t + (a + b + c + d)
  {
  }

  /** Such as a.1.11.d and a.11.1.d, and a.b.1.11 and a.b.11.1. */
  lemma TunnelNamesCollide(a: Byte, b: Byte, d: Byte)
    ensures TunnelName(Dotted(a, 1, 11, d)) == TunnelName(Dotted(a, 11, 1, d))
    ensures TunnelName(Dotted(a, b, 1, 11)) == TunnelName(Dotted(a, b, 11, 1))
  {
    assert Itoa(1) == "1" && Itoa(11) == "11" && "11" == "1" + "1";
    assert Shifted(1, 11, 11, 1);
    TunnelNamesTwoOctets(a, 1, 11, d, 11, 1);
    TunnelNamesTwoOctets(a, b, 1, 11, 11, 1);
  }
}
