/**
 * What `localStorage` holds under one key, as `JSON.parse` sees it: the
 * JSON text of a value of the expected shape, or text that it rejects.
 * An absent key is `None` in an `Option` around it.
 */
module Storage {
  datatype Stored<T> = Json(value: T) | Malformed
}
