/** Basic machine types, the sector size and the error taxonomy shared by every component. */
module Types {

  /** An unsigned 8-bit value. */
  type byte = x: int | 0 <= x < 256

  /** An unsigned 32-bit value, the width of every sparse-header field and grain-table entry. */
  type uint32 = x: int | 0 <= x < 0x1_0000_0000

  /** One more than the largest unsigned 32-bit value. */
  const UINT32_LIMIT: nat := 0x1_0000_0000

  /** An unsigned 32-bit result: `x` reduced modulo 2^32, as C's uint32_t arithmetic does. */
  function Wrap32(x: int): (r: uint32)
    ensures 0 <= x < UINT32_LIMIT ==> r == x
  {
    x % UINT32_LIMIT
  }

  const SECTOR_SIZE: nat := 512

  /** One 512-byte disk sector. */
  type Sector = s: seq<byte> | |s| == 512 witness seq(512, _ => 0)

  /** The all-zero sector returned for logically-zero grains and for sectors of a root with no data. */
  function ZeroSector(): (z: Sector)
    ensures forall i :: 0 <= i < 512 ==> z[i] == 0
  {
    seq(512, _ => 0)
  }

  datatype Option<T> = None | Some(value: T)

  /** Every fatal condition of the tool; each one ends the process with a diagnostic. */
  datatype Error =
    | DescriptorOpenFailed(path: string)     // the descriptor file cannot be opened
    | ExtentOpenFailed(path: string)         // the backing file named by an extent line cannot be opened
    | ExtentReadFailed(path: string)         // a header, directory, table or sector read came up short
    | MultipleExtents(descriptor: string)    // a second extent line after a non-zero size
    | MultipleParents(descriptor: string)    // a second parentFileNameHint line
    | NoExtent(descriptor: string)           // no extent line with a non-zero size
    | SizeOutOfRange(descriptor: string)     // an extent size too large for an unsigned 64-bit value
    | ParentSizeMismatch(descriptor: string) // the parent's size differs from the child's
    | SectorCountMismatch(descriptor: string) // header numSectors differs from the descriptor size
    | UnsupportedType(kind: string)          // an extent type other than VMFS or VMFSSPARSE
    | ParentCycle(descriptor: string)        // a descriptor is (transitively) its own parent
    | Undefined                              // the source's behaviour is undefined for this input

  datatype Result<T> = Ok(value: T) | Err(error: Error)
}
