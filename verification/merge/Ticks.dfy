/** Quotes, queued ticks and the code a popped tick is returned as. */
module Ticks {

  const ULONG_MAX := 0xFFFF_FFFF_FFFF_FFFF
  const UINT_MAX := 0xFFFF_FFFF
  const MAX_CHANNEL_CNT := 4096
  const REACH_END := 0xFFFF_FFFF_FFFF_FFFF

  type uint64 = x: int | 0 <= x <= 0xFFFF_FFFF_FFFF_FFFF
  type uint32 = x: int | 0 <= x <= 0xFFFF_FFFF

  datatype SortMethod = ByLocalTime | ByExchTime

  /** common_quote_t: what of a quote the sorting looks at. */
  datatype Quote = Quote(localTime: uint64, exchTime: uint64)

  /** quote_tick_t. */
  datatype Tick = Tick(exchTime: uint64, localTime: uint64, column: uint32, row: uint32)

  function KeyOf(t: Tick, sort: SortMethod): int {
    if sort == ByLocalTime then t.localTime else t.exchTime
  }

  function KeysOf(ticks: seq<Tick>, sort: SortMethod): seq<int> {
    seq(|ticks|, i requires 0 <= i < |ticks| => KeyOf(ticks[i], sort))
  }

  function QuoteKey(quote: Quote, sort: SortMethod): int {
    if sort == ByLocalTime then quote.localTime else quote.exchTime
  }

  /** convert_to_quote_tick: the times are stored plus one, modulo 2^64. */
  function ToTick(quote: Quote, column: uint32, row: uint32): Tick {
    Tick((quote.exchTime + 1) % 0x1_0000_0000_0000_0000, (quote.localTime + 1) % 0x1_0000_0000_0000_0000, column, row)
  }

  const FILL := Tick(ULONG_MAX, ULONG_MAX, UINT_MAX, UINT_MAX)
  const SENTINEL := Tick(0, 0, UINT_MAX, UINT_MAX)

  /** encode_tick on 32-bit unsigned operands. */
  function EncodeTick(row: uint32, col: uint32): int {
    ((row * 0x1000) % 0x1_0000_0000 + col) % 0x1_0000_0000
  }

  function DecodeRow(v: int): nat { (v % 0x1_0000_0000) / 0x1000 }

  function DecodeCol(v: int): nat { v % 0x1000 }

  /** No code is the end mark; and a code gives its tick back exactly when the row and the
      column fit their bits. */
  lemma CodeIsTick(row: uint32, col: uint32)
    ensures 0 <= EncodeTick(row, col) < REACH_END
    ensures (DecodeRow(EncodeTick(row, col)), DecodeCol(EncodeTick(row, col))) == (row, col) <==>
      row < 0x10_0000 && col < 0x1000
  {
    hide EncodeTick, DecodeRow, DecodeCol;
    CodeFits(row, col);
    if row < 0x10_0000 && col < 0x1000 { SmallCode(row, col); }
  }

  lemma CodeFits(row: uint32, col: uint32)
    ensures var v := EncodeTick(row, col);
      0 <= v < 0x1_0000_0000 && DecodeRow(v) < 0x10_0000 && DecodeCol(v) < 0x1000
  {
  }

  lemma SmallCode(row: uint32, col: uint32)
    requires row < 0x10_0000 && col < 0x1000
    ensures DecodeRow(EncodeTick(row, col)) == row && DecodeCol(EncodeTick(row, col)) == col
  {
    assert EncodeTick(row, col) == row * 0x1000 + col;
  }
}
