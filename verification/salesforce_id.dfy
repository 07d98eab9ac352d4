/**
 Salesforce record IDs come in a 15-character case-sensitive form and an
 18-character form that appends one checksum character per 5-character block.
 Each checksum character encodes, as a 5-bit mask, which positions of its
 block hold an upper-case ASCII letter.
 */
module SalesforceId {

  /** The 32 checksum symbols, indexed by a block's 5-bit mask. */
  const Alphabet: string := "ABCDEFGHIJKLMNOPQRSTUVWXYZ012345"

  /** Only the bytes 'A'..'Z' set a bit; lower case, digits and the rest do not. */
  predicate IsUpper(c: char)
  {
    'A' <= c <= 'Z'
  }

  /** `1 << n` */
  function Pow2(n: nat): (r: nat)
    ensures r >= 1
  {
    if n == 0 then 1 else 2 * Pow2(n - 1)
  }

  /** The mask of the first `n` positions of `block`: bit `p` is set exactly
      when position `p` holds an upper-case letter. */
  function PrefixMask(block: string, n: nat): (m: nat)
    requires n <= |block|
    ensures m < Pow2(n)
  {
    if n == 0 then 0
    else PrefixMask(block, n - 1) + (if IsUpper(block[n - 1]) then Pow2(n - 1) else 0)
  }

  /** Block `b` (0, 1 or 2) of a 15-character ID. */
  function Block(id: string, b: nat): (blk: string)
    requires |id| == 15 && b < 3
    ensures |blk| == 5
    ensures forall p | 0 <= p < 5 :: blk[p] == id[5 * b + p]
  {
    id[5 * b .. 5 * b + 5]
  }

  /** The checksum character of block `b`; its index is always in [0, 31]. */
  function CheckChar(id: string, b: nat): (c: char)
    requires |id| == 15 && b < 3
  {
    assert Pow2(5) == 32;
    Alphabet[PrefixMask(Block(id, b), 5)]
  }

  /** The three checksum characters of a 15-character ID. */
  function Suffix(id: string): (s: string)
    requires |id| == 15
    ensures |s| == 3
    ensures forall b | 0 <= b < 3 :: s[b] == CheckChar(id, b)
  {
    [CheckChar(id, 0), CheckChar(id, 1), CheckChar(id, 2)]
  }

  /** `normalizeId`: a 15-character ID gets its 3-character checksum appended;
      any other input (empty, already 18 characters, malformed) is returned as is. */
  function NormalizeId(id: string): (r: string)
    ensures |id| != 15 ==> r == id
    ensures |id| == 15 ==> |r| == 18 && r[..15] == id && r[15..] == Suffix(id)
  {
    if |id| != 15 then id else id + Suffix(id)
  }

  /** The nested loops of `normalizeId`, proved to compute `NormalizeId`. */
  method NormalizeIdLoop(id: string) returns (r: string)
    ensures r == NormalizeId(id)
  {
    if |id| != 15 {
      return id;
    }
    var addon: string := [];
    var block := 0;
    while block < 3
      invariant 0 <= block <= 3
      invariant |addon| == block
      invariant forall k | 0 <= k < block :: addon[k] == CheckChar(id, k)
    {
      var loop := 0;
      var position := 0;
      while position < 5
        invariant 0 <= position <= 5
        invariant loop == PrefixMask(Block(id, block), position)
      {
        var current := id[block * 5 + position];
        ghost var blk := Block(id, block);
        assert current == blk[position];
        if current >= 'A' && current <= 'Z' {
          loop := loop + Pow2(position);
        }
        assert loop == PrefixMask(blk, position + 1);
        position := position + 1;
      }
      assert Pow2(5) == 32;
      assert Alphabet[loop] == CheckChar(id, block);
      addon := addon + [Alphabet[loop]];
      block := block + 1;
    }
    assert addon == Suffix(id);
    r := id + addon;
  }

  /** Two IDs are the same record when their normal forms are equal: two
      short IDs, or two IDs neither of which is short, only when they are
      equal; a short and a longer ID, in either order, when the longer is
      the short one's long form. */
  function Equivalent(a: string, b: string): (r: bool)
    ensures |a| == 15 && |b| == 15 ==> (r <==> a == b)
    ensures |a| != 15 && |b| != 15 ==> (r <==> a == b)
    ensures |a| == 15 && |b| != 15 ==> (r <==> b == NormalizeId(a))
    ensures |a| != 15 && |b| == 15 ==> (r <==> a == NormalizeId(b))
  {
    NormalizeId(a) == NormalizeId(b)
  }

  /** Normalising twice is normalising once: a 15-character input becomes
      18 characters long, on which normalising is the identity. */
  lemma NormalizeIdIdempotent(id: string)
    ensures NormalizeId(NormalizeId(id)) == NormalizeId(id)
  {
  }

  /** A 15-character ID and its 18-character form name the same record. */
  lemma ShortFormEquivalentToLongForm(id: string)
    requires |id| == 15
    ensures Equivalent(id, NormalizeId(id))
    ensures Equivalent(NormalizeId(id), id)
  {
    NormalizeIdIdempotent(id);
  }

  /** Two 15-character IDs are equivalent only when they are equal,
      including in case. */
  lemma ShortFormsEquivalentIffEqual(a: string, b: string)
    requires |a| == 15 && |b| == 15
    ensures Equivalent(a, b) <==> a == b
  {
    if Equivalent(a, b) {
      assert a == NormalizeId(a)[..15] == NormalizeId(b)[..15] == b;
    }
  }

  /** The case pattern of a string: which positions hold an upper-case letter. */
  function CasePattern(s: string): (pat: seq<bool>)
    ensures |pat| == |s|
    ensures forall i | 0 <= i < |s| :: pat[i] == IsUpper(s[i])
  {
    seq(|s|, i requires 0 <= i < |s| => IsUpper(s[i]))
  }

  /** Reads a mask below `2^n` back into its `n` bits, lowest bit first,
      by testing the top bit and recursing on the rest. */
  function DecodeMask(m: nat, n: nat): (bits: seq<bool>)
    requires m < Pow2(n)
    ensures |bits| == n
  {
    if n == 0 then []
    else
      var top := m >= Pow2(n - 1);
      DecodeMask(if top then m - Pow2(n - 1) else m, n - 1) + [top]
  }

  /** Decoding the mask of a prefix gives back that prefix's case pattern. */
  lemma {:induction false} DecodePrefixMask(block: string, n: nat)
    requires n <= |block|
    ensures DecodeMask(PrefixMask(block, n), n) == CasePattern(block[..n])
  {
    if n > 0 {
      DecodePrefixMask(block, n - 1);
      assert block[..n] == block[..n - 1] + [block[n - 1]];
      assert CasePattern(block[..n]) == CasePattern(block[..n - 1]) + [IsUpper(block[n - 1])];
    }
  }

  /** The mask of a prefix depends on nothing but the prefix's case pattern. */
  lemma {:induction false} PrefixMaskOfCasePattern(x: string, y: string, n: nat)
    requires n <= |x| && n <= |y|
    requires forall i | 0 <= i < n :: IsUpper(x[i]) == IsUpper(y[i])
    ensures PrefixMask(x, n) == PrefixMask(y, n)
  {
    if n > 0 {
      PrefixMaskOfCasePattern(x, y, n - 1);
    }
  }

  /** The position of a checksum symbol in `Alphabet`. */
  function AlphabetIndex(c: char): (i: int)
  {
    if 'A' <= c <= 'Z' then c as int - 'A' as int else c as int - '0' as int + 26
  }

  /** Every mask in [0, 31] has its own checksum symbol. */
  lemma AlphabetIndexInverts(m: nat)
    requires m < 32
    ensures AlphabetIndex(Alphabet[m]) == m
  {
  }

  /** The checksum character of a block encodes exactly that block's case
      pattern: decoding its alphabet index bit by bit gives, for each of the
      five positions, whether it holds 'A'..'Z'. */
  lemma CheckCharEncodesCase(id: string, b: nat)
    requires |id| == 15 && b < 3
    ensures 0 <= AlphabetIndex(NormalizeId(id)[15 + b]) < 32
    ensures DecodeMask(AlphabetIndex(NormalizeId(id)[15 + b]), 5) == CasePattern(id[5 * b .. 5 * b + 5])
  {
    var blk := Block(id, b);
    var m := PrefixMask(blk, 5);
    assert Pow2(5) == 32;
    assert NormalizeId(id)[15 + b] == Suffix(id)[b] == Alphabet[m];
    AlphabetIndexInverts(m);
    DecodePrefixMask(blk, 5);
    assert blk[..5] == blk;
  }

  /** Equal checksum characters for the block holding position `i` mean the
      two IDs agree on whether position `i` is an upper-case letter. */
  lemma SameCheckCharSameCase(x: string, y: string, i: nat)
    requires |x| == 15 && |y| == 15 && i < 15
    requires CheckChar(x, i / 5) == CheckChar(y, i / 5)
    ensures IsUpper(x[i]) == IsUpper(y[i])
  {
    var b := i / 5;
    var p := i - 5 * b;
    assert 0 <= p < 5;
    var xb, yb := Block(x, b), Block(y, b);
    var mx, my := PrefixMask(xb, 5), PrefixMask(yb, 5);
    assert Pow2(5) == 32;
    AlphabetIndexInverts(mx);
    AlphabetIndexInverts(my);
    assert mx == my;
    DecodePrefixMask(xb, 5);
    DecodePrefixMask(yb, 5);
    assert xb[..5] == xb && yb[..5] == yb;
    assert CasePattern(xb)[p] == CasePattern(yb)[p];
  }

  /** The checksum depends only on the case pattern of the ID. */
  lemma SameCaseSameSuffix(x: string, y: string)
    requires |x| == 15 && |y| == 15
    requires forall i | 0 <= i < 15 :: IsUpper(x[i]) == IsUpper(y[i])
    ensures Suffix(x) == Suffix(y)
  {
    forall b | 0 <= b < 3
      ensures CheckChar(x, b) == CheckChar(y, b)
    {
      PrefixMaskOfCasePattern(Block(x, b), Block(y, b), 5);
    }
  }

  /** Two 15-character IDs get the same checksum exactly when every position
      agrees on being an upper-case letter. */
  lemma SameSuffixIffSameCase(x: string, y: string)
    requires |x| == 15 && |y| == 15
    ensures Suffix(x) == Suffix(y) <==> forall i | 0 <= i < 15 :: IsUpper(x[i]) == IsUpper(y[i])
  {
    if Suffix(x) == Suffix(y) {
      forall i | 0 <= i < 15
        ensures IsUpper(x[i]) == IsUpper(y[i])
      {
        assert Suffix(x)[i / 5] == Suffix(y)[i / 5];
        SameCheckCharSameCase(x, y, i);
      }
    } else if forall i | 0 <= i < 15 :: IsUpper(x[i]) == IsUpper(y[i]) {
      SameCaseSameSuffix(x, y);
    }
  }

  /** The checksum of one ID without upper-case letters. */
  lemma NoUpperCaseExample()
    ensures NormalizeId("000000000000001") == "000000000000001AAA"
  {
    assert Pow2(5) == 32;
  }

  /** The checksum of one all-upper-case ID. */
  lemma AllUpperCaseExample()
    ensures NormalizeId("ABCDEABCDEABCDE") == "ABCDEABCDEABCDE555"
  {
    assert Pow2(5) == 32;
  }

  /** Every 15-character ID without upper-case letters gets the all-zero
      checksum "AAA". */
  lemma NoUpperCaseGivesAAA(id: string)
    requires |id| == 15 && forall i | 0 <= i < 15 :: !IsUpper(id[i])
    ensures NormalizeId(id) == id + "AAA"
  {
    NoUpperCaseExample();
    SameCaseSameSuffix(id, "000000000000001");
  }

  /** Every 15-character ID made only of 'A'..'Z' gets the all-ones
      checksum "555". */
  lemma AllUpperCaseGives555(id: string)
    requires |id| == 15 && forall i | 0 <= i < 15 :: IsUpper(id[i])
    ensures NormalizeId(id) == id + "555"
  {
    AllUpperCaseExample();
    SameCaseSameSuffix(id, "ABCDEABCDEABCDE");
  }

  /** A short ID is equivalent to its own long form and to no other
      record's long form. */
  lemma DifferentRecordsNotEquivalent(a: string, b: string)
    requires |a| == 15 && |b| == 15
    ensures Equivalent(a, NormalizeId(a))
    ensures a != b ==> !Equivalent(a, NormalizeId(b))
  {
    NormalizeIdIdempotent(a);
    NormalizeIdIdempotent(b);
    ShortFormsEquivalentIffEqual(a, b);
  }
}
