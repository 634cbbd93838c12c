/** What the parts of the model share: optional values and the constants of mdb.c and midl.h. */
module Common {
  datatype Option<T> = None | Some(value: T)

  const NUM_METAS := 2
  const MAX_ID := 0xffff_ffff_ffff_ffff    // (MDB_ID)-1
  const UM_MAX := 0x1_ffff                 // MDB_IDL_UM_MAX
  const INT_MAX := 0x7fff_ffff
}
