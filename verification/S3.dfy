/** What the storage backend relies on S3 for: objects under etags, and conditions on them. */
module S3 {
  import opened Basics

  datatype Object = Object(etag: nat, bytes: Bytes)

  /** The content every etag has stood for so far: an etag determines its content, a content may have many etags. */
  type Etags = map<nat, Bytes>

  predicate Fits(tags: Etags, o: Object) {
    o.etag in tags ==> tags[o.etag] == o.bytes
  }

  function Learn(tags: Etags, o: Object): Etags {
    tags[o.etag := o.bytes]
  }

  predicate Known(tags: Etags, o: Object) {
    o.etag in tags && tags[o.etag] == o.bytes
  }

  predicate CurrentKnown(tags: Etags, current: Option<Object>) {
    current.Some? ==> Known(tags, current.value)
  }

  /** `if-match` */
  predicate Matches(current: Option<Object>, etag: nat) {
    current.Some? && current.value.etag == etag
  }

  function BytesIn(current: Option<Object>): Bytes {
    if current.Some? then current.value.bytes else []
  }
}
