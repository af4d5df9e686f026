/** Return codes and the L3 fault flags of include/axilog/l3_types.h. */
module Faults {
  const AX_OK := 0
  const AX_ERR_ENCODING := -1
  const AX_ERR_SCHEMA := -2
  const AX_ERR_ORDERING := -3
  const AX_ERR_SIZE := -4
  const AX_ERR_HASH := -5
  const AX_ERR_BUFFER := -6

  /** `ax_l3_fault_flags_t`: the flags this model sets. */
  class FaultFlags {
    var encoding: bool
    var schema: bool
    var ordering: bool
    var size: bool
    var protocol: bool

    constructor ()
      ensures !encoding && !schema && !ordering && !size && !protocol
    {
      encoding, schema, ordering, size, protocol := false, false, false, false, false;
    }
  }
}
