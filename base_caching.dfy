/**
 * What the caching policies share through their Python base class `BaseCaching`.
 * The base class itself is not part of this model; of it only the capacity
 * `BaseCaching.MAX_ITEMS` is used, and its value is not known here, so every
 * cache is given it at construction and it is only assumed to be at least 1.
 */
module BaseCaching {

  /** The capacity `BaseCaching.MAX_ITEMS`: a positive number of entries. */
  type MaxItems = n: int | 1 <= n witness 1
}
