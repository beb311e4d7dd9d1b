/** Timestamps as the demuxer compares them: plain numbers, one of which, NOPTS, stands for
    "no timestamp" and lies below every timestamp in use. */
module Timestamps {

  const NOPTS: real := -9223372036854775808.0

  function PtsOrDef(a: real, def: real): real {
    if a == NOPTS then def else a
  }

  function Min(a: real, b: real): real {
    if a > b then b else a
  }

  function Max(a: real, b: real): real {
    if a > b then a else b
  }

  /** The smaller one; a missing timestamp never wins against a present one. */
  function PtsMin(a: real, b: real): real {
    Min(PtsOrDef(a, b), PtsOrDef(b, a))
  }

  /** The larger one; a missing timestamp never wins against a present one. */
  function PtsMax(a: real, b: real): real {
    Max(PtsOrDef(a, b), PtsOrDef(b, a))
  }
}
