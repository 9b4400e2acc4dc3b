/**
 * blogicum/core: the abstract base model that adds a publication flag and a
 * creation stamp to the models extending it. Being abstract, it has no table
 * of its own; here it is a value embedded as the `base` field of each
 * extending record.
 */
module Core {
  import opened Wrappers

  /** A point in time (seconds on some fixed clock); the clock itself is a parameter `now`. */
  type Time = int

  /** The two fields the abstract base contributes: `is_published` and `created_at`. */
  datatype PublishedAndCreated = PublishedAndCreated(isPublished: bool, createdAt: Time)

  /**
   * The base fields of a record saved for the first time at `now`:
   * `is_published` defaults to true when no value is given, and `created_at`
   * is stamped with the creation time.
   */
  function Created(isPublished: Option<bool>, now: Time): (b: PublishedAndCreated)
    ensures b.createdAt == now
    ensures b.isPublished <==> isPublished != Some(false)
    ensures isPublished.Some? ==> b.isPublished == isPublished.value
  {
    match isPublished
    case None => PublishedAndCreated(true, now)
    case Some(flag) => PublishedAndCreated(flag, now)
  }
}
