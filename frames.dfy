/** A DataFrame that the loaders update in place. */
module Frames {
  import opened Tables

  class Frame<T(==,!new)> {
    var rows: seq<T>

    /** `pd.read_csv(...)`: a frame holding the parsed rows. */
    constructor (parsed: seq<T>)
      ensures rows == parsed
    {
      rows := parsed;
    }

    /** A whole-column assignment (`df[c] = df[c].str.title()`) or an in-place
        `fillna`: every row is rewritten by f, in place, in row order. */
    method Apply(f: T -> T)
      modifies this
      ensures rows == Map(old(rows), f)
    {
      rows := Map(rows, f);
    }

    /** `drop_duplicates(inplace=True)`: the first copy of every row stays,
        later copies go. */
    method DropDuplicates()
      modifies this
      ensures rows == Dedup(old(rows))
      ensures Distinct(rows)
      ensures forall x :: x in rows <==> x in old(rows)
    {
      rows := Dedup(rows);
    }
  }
}
