/** The chunked loop that writes back or invalidates a block of cache. */
module CacheBlock {

  const MAX_WC: nat := 0xFF00
  const TWO_32: nat := 0x1_0000_0000

  /** One pair of register writes: the base address and the word count. */
  datatype Issue = Issue(base: nat, words: int)

  function WordAligned(a: nat): nat {
    a / 4 * 4
  }

  function Words(blockPtr: nat, byteCnt: nat): nat {
    (byteCnt + 3 + (blockPtr - WordAligned(blockPtr))) / 4
  }

  /** The operations follow one another without gap or overlap, from word address
      `from` for `words` words, none too large. */
  predicate Tiles(issued: seq<Issue>, from: nat, words: nat)
    decreases |issued|
  {
    if issued == [] then words == 0
    else
      var last := issued[|issued| - 1];
      && 1 <= last.words <= MAX_WC && last.words <= words
      && last.base + 4 * last.words == from + 4 * words
      && Tiles(issued[..|issued| - 1], from, words - last.words)
  }

  lemma TilesMore(issued: seq<Issue>, from: nat, done: nat, words: nat)
    requires Tiles(issued, from, done) && 1 <= words <= MAX_WC
    ensures Tiles(issued + [Issue(from + 4 * done, words)], from, done + words)
  {
    assert (issued + [Issue(from + 4 * done, words)])[..|issued|] == issued;
  }

  lemma NoTiles(from: nat)
    ensures Tiles([], from, 0)
  {
  }

  /** `block`: the register writes it makes, in order, all but the last of 0xFF00
      words. Addresses are 32 bits wide. */
  method Block(blockPtr: nat, byteCnt: nat) returns (issued: seq<Issue>)
    requires blockPtr < 0x1_0000_0000 && byteCnt + 6 < 0x1_0000_0000
    requires WordAligned(blockPtr) + 4 * Words(blockPtr, byteCnt) <= 0x1_0000_0000
    ensures Tiles(issued, WordAligned(blockPtr), Words(blockPtr, byteCnt))
    ensures forall i | 0 <= i < |issued| ::
              && issued[i].base == WordAligned(blockPtr) + 0x3_FC00 * i < 0x1_0000_0000
              && (i < |issued| - 1 ==> issued[i].words == 0xFF00)
  {
    hide Tiles;
    issued := [];
    NoTiles(blockPtr - blockPtr % 4);
    var alignAddr := blockPtr - blockPtr % 4;
    var wordCnt: int := (byteCnt + 3 + (blockPtr - alignAddr)) % TWO_32 / 4;
    ghost var from, words, done := alignAddr, wordCnt, 0;
    while wordCnt > 0
      invariant wordCnt == words - done || (wordCnt <= 0 && done == words)
      invariant 0 <= done <= words && Tiles(issued, from, done)
      invariant wordCnt > 0 ==> alignAddr == from + 4 * done
      invariant wordCnt > 0 ==> done == 0xFF00 * |issued|
      invariant forall i | 0 <= i < |issued| ::
                  && issued[i].base == from + 0x3_FC00 * i < 0x1_0000_0000
                  && (i < |issued| - 1 || wordCnt > 0 ==> issued[i].words == 0xFF00)
      decreases wordCnt
    {
      var wc := if wordCnt > MAX_WC then MAX_WC else wordCnt;
      issued := issued + [Issue(alignAddr, wc)];
      TilesMore(issued[..|issued| - 1], from, done, wc);
      done := done + wc;
      wordCnt := wordCnt - MAX_WC;
      alignAddr := (alignAddr + MAX_WC * 4) % TWO_32;
    }
  }

  /** The bytes an operation works on. */
  predicate Touches(e: Issue, a: int) {
    e.base <= a < e.base + 4 * e.words
  }

  /** A byte is worked on exactly when it lies in the tiled span, and then once. */
  lemma {:induction false} TilesCover(issued: seq<Issue>, from: nat, words: nat, a: int)
    requires Tiles(issued, from, words)
    ensures (exists i :: 0 <= i < |issued| && Touches(issued[i], a)) <==> from <= a < from + 4 * words
    ensures forall i, j | 0 <= i < j < |issued| :: issued[i].base + 4 * issued[i].words <= issued[j].base
    decreases |issued|
  {
    if issued != [] {
      var last, before := issued[|issued| - 1], issued[..|issued| - 1];
      TilesCover(before, from, words - last.words, a);
      TilesBelow(before, from, words - last.words);
      if from <= a < from + 4 * words {
        if a < last.base {
          var i :| 0 <= i < |before| && Touches(before[i], a);
          assert Touches(issued[i], a);
        } else {
          assert Touches(issued[|issued| - 1], a);
        }
      }
      forall i | 0 <= i < |issued| && Touches(issued[i], a)
        ensures from <= a < from + 4 * words
      {
        if i < |before| {
          assert Touches(before[i], a);
        }
      }
    }
  }

  lemma {:induction false} TilesBelow(issued: seq<Issue>, from: nat, words: nat)
    requires Tiles(issued, from, words)
    ensures forall i | 0 <= i < |issued| ::
              from <= issued[i].base && issued[i].base + 4 * issued[i].words <= from + 4 * words
    decreases |issued|
  {
    if issued != [] {
      TilesBelow(issued[..|issued| - 1], from, words - issued[|issued| - 1].words);
    }
  }

  /** The span is the smallest one of whole words that holds every byte asked for. */
  lemma SmallestSpan(blockPtr: nat, byteCnt: nat, from: nat, to: nat)
    requires byteCnt > 0
    ensures WordAligned(blockPtr) % 4 == 0 && WordAligned(blockPtr) <= blockPtr
    ensures blockPtr + byteCnt <= WordAligned(blockPtr) + 4 * Words(blockPtr, byteCnt)
    ensures from % 4 == 0 && to % 4 == 0 && from <= blockPtr && blockPtr + byteCnt <= to
            ==> from <= WordAligned(blockPtr) && WordAligned(blockPtr) + 4 * Words(blockPtr, byteCnt) <= to
  {
  }
}
