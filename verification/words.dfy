/** 32-bit machine arithmetic, the page-size macros (kernel/include/pmm.h) and two control characters. */
module Words {
  const U32: nat := 0x1_0000_0000
  const PAGE_SIZE: nat := 4096

  /** The value an unsigned 32-bit expression keeps. */
  function Wrap(x: int): nat {
    x % U32
  }

  /** The value an int parameter receives when an unsigned 32-bit word is passed to it. */
  function AsInt(x: nat): int
    requires x < U32
  {
    if x < 0x8000_0000 then x else x - U32
  }

  /** PAGE_ALIGN_UP, with its 32-bit wrap-around. */
  function AlignUp(address: nat): nat {
    Wrap(address + 4095) / 4096 * 4096
  }

  /** ADDR_TO_PFN. */
  function Pfn(address: nat): nat {
    address / 4096
  }

  // The characters that the keyboard's line editor and the terminal treat alike.
  const BACKSPACE: char := 8 as char
  const NEWLINE: char := 10 as char
}
