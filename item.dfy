/** The snapshot record handed to observers of a transfer. */
module Item {
  import opened Io

  /** A detached copy of the progress state, labelled with a caller-chosen
      `id`. The byte counter `size` is unbounded here (see README). */
  datatype Item = Item(id: string, name: string, total: u64, size: nat, canceled: bool)
}
