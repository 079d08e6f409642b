/**
 What the model router lists (api/state.py). Entries that are not objects and names that are absent are kept,
 as the readers have to pass over them.
 */
module Router {
  import opened Wrappers

  type Time = int

  /** Byte counts one device reports for a model; a count that is not an integer is absent. */
  datatype Device = NotAnObject | Device(model: Option<int>, context: Option<int>, compute: Option<int>)

  /** An empty name stands for a missing one, as both are passed over. */
  datatype Entry = NotAnObject | Entry(name: string, status: string, memory: Option<seq<Device>>)

  /** None when the router does not answer. */
  type Listing = Option<seq<Entry>>

  predicate Is(entry: Entry, name: string, status: string) {
    entry.Entry? && entry.name == name && name != "" && entry.status == status
  }

  predicate Lists(listing: Listing, name: string, status: string) {
    listing.Some? && exists i :: 0 <= i < |listing.value| && Is(listing.value[i], name, status)
  }
}
