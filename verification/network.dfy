/**
 * The outcome of `Utilities.fetchData` / `Utilities.uploadData`, taken as an
 * input. `Delivered` stands for a response with no transport error, a status
 * code in 200...299 and a body; every other outcome (transport error, other
 * status, missing body) is `Failed`. The callers only print the error, so the
 * failure carries nothing.
 */
module Network {
  datatype Reply<+T> = Failed | Delivered(data: T)
}
