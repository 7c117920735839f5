/** The three cache scopes and how a lookup picks one. */
module CacheTypes {
  import opened Wrappers

  datatype CacheType =
    | Local   // lives on the anchor found on or above the search root, or placed on its topmost ancestor
    | Scene   // lives on the single anchor of the search root's scene, shared by every search there
    | Static  // the finder's one shared dictionary, emptied only by the clear methods

  /** `cacheType ?? DefaultCacheType`. */
  function EffectiveCacheType(requested: Option<CacheType>, defaultCacheType: CacheType): CacheType {
    if requested.Some? then requested.value else defaultCacheType
  }

  /** Static scope, or a host that is not playing, searches the shared dictionary. */
  predicate UsesSharedDictionary(scope: CacheType, isPlaying: bool) {
    scope == Static || !isPlaying
  }

  /**
   * Which dictionary a scoped lookup uses: the shared one exactly when the host is
   * not playing or the effective scope is `Static`; `Local` and `Scene` use an anchor.
   */
  lemma DictionaryChoice(requested: Option<CacheType>, defaultCacheType: CacheType, isPlaying: bool)
    ensures UsesSharedDictionary(EffectiveCacheType(requested, defaultCacheType), isPlaying) <==>
            (!isPlaying || requested == Some(Static) || (requested.None? && defaultCacheType == Static))
  {
  }
}
