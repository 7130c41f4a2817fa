/** The value types shared by the whole booth: the two layouts, the four
    export filters and an optional value (the source's `T | null`). */
module Types {

  /** The arrangement of the composed picture (`LayoutType` in types.ts). */
  datatype LayoutType = Grid | Strip

  /** The cosmetic filter chosen for export (`FilterType` in types.ts). */
  datatype FilterType = Original | BlackAndWhite | Sepia | Vintage

  /** A value that may be missing, as `null` is in the source. */
  datatype Option<+T> = None | Some(value: T)
}
