/** codec/h265/utils.go: the NAL unit types of H.265. */
module Hevc {
  import opened Nal

  const VPS: int := 32
  const SPS: int := 33
  const PPS: int := 34
  const DELIMITER: int := 35
  const PREFIX_SEI: int := 39
  const SUFFIX_SEI: int := 40

  function TypeOf(nalu: Nalu): int
    requires nalu != []
  {
    nalu[0] as int / 2 % 64
  }

  predicate IsKey(t: int) {
    16 <= t <= 21
  }
}
