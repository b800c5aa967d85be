/** 64-bit words as their bits, and pairs of words as 64 cells of two bits each. */
module BitPlanes {

  type Word = w: seq<bool> | |w| == 64 witness seq(64, i => false)

  function Zero(): (r: Word) { seq(64, i => false) }

  function And(x: Word, y: Word): (r: Word) { seq(64, i requires 0 <= i < 64 => x[i] && y[i]) }

  function Or(x: Word, y: Word): (r: Word) { seq(64, i requires 0 <= i < 64 => x[i] || y[i]) }

  function Xor(x: Word, y: Word): (r: Word) { seq(64, i requires 0 <= i < 64 => x[i] != y[i]) }

  function Not(x: Word): (r: Word) { seq(64, i requires 0 <= i < 64 => !x[i]) }

  /** A bit shifted to its place. */
  function Shifted(on: bool, b: nat): (r: Word) { seq(64, i => on && i == b) }

  /** All ones or all zeros: the negative of a bit. */
  function Spread(on: bool): (r: Word) { seq(64, i => on) }

  /** The generation in a cell, or zero. */
  function Tag(p1: Word, p2: Word, b: nat): (g: int)
    requires b < 64
    ensures 0 <= g < 4
  {
    (if p1[b] then 1 else 0) + if p2[b] then 2 else 0
  }

  function WipeMask(p1: Word, p2: Word, g: int): Word {
    Or(Xor(p1, Spread(g % 2 == 1)), Xor(p2, Spread(g / 2 == 1)))
  }

  /** The masked wipe clears exactly the cells of one generation. */
  lemma Wiped(p1: Word, p2: Word, g: int, b: nat)
    requires b < 64 && 1 <= g < 4
    ensures var m := WipeMask(p1, p2, g);
            Tag(And(p1, m), And(p2, m), b) == if Tag(p1, p2, b) == g then 0 else Tag(p1, p2, b)
  {
    assert WipeMask(p1, p2, g)[b] == (p1[b] != (g % 2 == 1) || p2[b] != (g / 2 == 1));
  }

  /** Write one bit. */
  function Put(x: Word, b: nat, on: bool): Word {
    Or(And(x, Not(Shifted(true, b))), Shifted(on, b))
  }

  lemma PutTag(p1: Word, p2: Word, b: nat, g: int, c: nat)
    requires b < 64 && c < 64 && 1 <= g < 4
    ensures Tag(Put(p1, b, g % 2 == 1), Put(p2, b, g / 2 == 1), c) == if c == b then g else Tag(p1, p2, c)
  {
  }
}
