/** The 64-bit words of a page table (figure 4.21 of the RISC-V Privileged Architecture
    specification): the PPN from bit 10 up, then ten flag bits, of which bit 0 is V. */
module PteCodec {
  import opened PageTable
  import opened VmSpec

  const LIMIT: nat := 0x1_0000_0000_0000_0000

  // One more bit at the low end.
  function Shift(b: bool, rest: nat): nat { (if b then 1 else 0) + 2 * rest }

  function Low(x: nat): bool { x % 2 == 1 }

  function High(x: nat): nat { x / 2 }

  // The PPN above the last five flag bits.
  function Rest(other: nat, ppn: nat): nat { other + 32 * ppn }

  // PA2PTE(pa) | perm | PTE_V, bit by bit from the low end.
  function Encode(e: Pte): nat {
    var f := e.flags;
    Shift(e.v, Shift(f.r, Shift(f.w, Shift(f.x, Shift(f.u, Rest(f.other, e.ppn))))))
  }

  function Decode(word: nat): Pte {
    var r := High(word);
    var w := High(r);
    var x := High(w);
    var u := High(x);
    var rest := High(u);
    Pte(rest / 32, Low(word), Flags(Low(r), Low(w), Low(x), Low(u), rest % 32))
  }

  // Entries whose fields fit their bits.
  ghost predicate Fits(e: Pte) { e.ppn < 0x40_0000_0000_0000 && e.flags.other < 32 }

  lemma Split(b: bool, rest: nat)
    ensures High(Shift(b, rest)) == rest && Low(Shift(b, rest)) == b
  {
  }

  lemma SplitRest(other: nat, ppn: nat)
    requires other < 32
    ensures Rest(other, ppn) / 32 == ppn && Rest(other, ppn) % 32 == other
  {
  }

  lemma DecodeEncode(e: Pte)
    requires Fits(e)
    ensures Decode(Encode(e)) == e
  {
    hide Shift;
    hide High;
    hide Low;
    hide Rest;
    var f := e.flags;
    var rest := Rest(f.other, e.ppn);
    var u := Shift(f.u, rest);
    var x := Shift(f.x, u);
    var w := Shift(f.w, x);
    Split(e.v, Shift(f.r, w));
    Split(f.r, w);
    Split(f.w, x);
    Split(f.x, u);
    Split(f.u, rest);
    SplitRest(f.other, e.ppn);
  }

  lemma Halves(n: nat)
    ensures n / 2 / 2 == n / 4 && n / 4 / 2 == n / 8 && n / 8 / 2 == n / 16 && n / 16 / 2 == n / 32
  {
  }

  // Taking a word apart and putting it together again.
  lemma Rejoin(word: nat)
    ensures Encode(Decode(word)) == word
  {
    hide Rest;
    var r := word / 2;
    var w := r / 2;
    var x := w / 2;
    var u := x / 2;
    var rest := u / 2;
    assert Rest(rest % 32, rest / 32) == rest by { JoinRest(rest); }
  }

  lemma JoinRest(rest: nat)
    ensures Rest(rest % 32, rest / 32) == rest
  {
  }

  lemma PpnPlace(rest: nat, word: nat)
    requires word < LIMIT && rest == word / 32
    ensures rest / 32 == word / 1024 < 0x40_0000_0000_0000
  {
  }

  /** Every word is the encoding of exactly one entry: bits 0 to 4 are V, R, W, X and U, the next five
      the rest of the flags, and the page number is above bit 10. */
  lemma EncodeDecode(word: nat)
    requires word < LIMIT
    ensures var e := Decode(word);
            && Fits(e) && Encode(e) == word && e.ppn == word / 1024 && e.flags.other == word / 32 % 32
            && (e.v <==> word % 2 == 1) && (e.flags.r <==> word / 2 % 2 == 1) && (e.flags.w <==> word / 4 % 2 == 1)
            && (e.flags.x <==> word / 8 % 2 == 1) && (e.flags.u <==> word / 16 % 2 == 1)
  {
    hide Encode;
    Rejoin(word);
    Halves(word);
    PpnPlace(word / 32, word);
  }

  // A word of eight equal bytes.
  function Bytes(b: nat): nat { b * 0x0101_0101_0101_0101 }

  /** The junk that memset leaves in freed and in newly allocated pages reads as a valid entry:
      the reason why walk must clear a table and freewalk may not look at one twice. */
  lemma JunkWords()
    ensures Decode(Bytes(1)) == Junk1 && Decode(Bytes(5)) == Junk5 && Decode(Bytes(0)) == Zero
    ensures Junk1.v && Junk5.v && !Zero.v
  {
  }
}
