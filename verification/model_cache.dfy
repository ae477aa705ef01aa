/** The process-wide Whisper model cache of the refactored processor
    (audio_processor_refactored.py:23-100) and the model loading of the first
    processor (audio_processor.py:26-40). `whisper.load_model` is an oracle
    that returns a model or raises. */
module ModelCache {
  import opened Common

  /** `model` and `model_name` of the singleton. */
  datatype Cache<M> = Cache(model: Option<M>, name: Option<string>)

  /** The cache as `__init__` leaves it, and as `clear_cache` leaves it. */
  function Empty<M>(): Cache<M> {
    Cache(None, None)
  }

  /** The state after `get_model`, what it returned or raised, and whether it
      called the loader. */
  datatype Lookup<M> = Lookup(cache: Cache<M>, result: Outcome<M>, loaded: bool)

  /** `get_model(model_name)`: load when nothing is cached or another model
      is; a load that raises leaves the cache as it was. */
  function GetModel<M>(c: Cache<M>, name: string, load: string -> Outcome<M>): (l: Lookup<M>)
    ensures l.loaded <==> c.model.None? || c.name != Some(name)
    ensures !l.loaded ==> l.cache == c && l.result == Done(c.model.value)
    ensures l.loaded ==> l.result == load(name)
    ensures l.loaded && l.result.Done? ==> l.cache == Cache(Some(l.result.value), Some(name))
    ensures l.result.Raised? ==> l.cache == c
  {
    if c.model.None? || c.name != Some(name) then
      match load(name)
      case Done(m) => Lookup(Cache(Some(m), Some(name)), Done(m), true)
      case Raised(e) => Lookup(c, Raised(e), true)
    else Lookup(c, Done(c.model.value), false)
  }

  /** `clear_cache()`. */
  function ClearCache<M>(c: Cache<M>): (r: Cache<M>)
    ensures r.model.None? && r.name.None?
  {
    Empty()
  }

  /** Asking twice for the same model loads it at most once: the second call
      returns the first call's model and leaves the cache alone. */
  lemma RepeatHits<M>(c: Cache<M>, name: string, load: string -> Outcome<M>)
    requires GetModel(c, name, load).result.Done?
    ensures var first := GetModel(c, name, load);
      var second := GetModel(first.cache, name, load);
      && !second.loaded
      && second.result == first.result
      && second.cache == first.cache
  {
  }

  /** Asking for another model replaces the cached one. */
  lemma SwitchReloads<M>(c: Cache<M>, a: string, b: string, load: string -> Outcome<M>)
    requires a != b && GetModel(c, a, load).result.Done?
    ensures GetModel(GetModel(c, a, load).cache, b, load).loaded
  {
  }

  /** After `clear_cache` the next request always loads. */
  lemma ClearForcesReload<M>(c: Cache<M>, name: string, load: string -> Outcome<M>)
    ensures GetModel(ClearCache(c), name, load).loaded
    ensures GetModel(ClearCache(c), name, load).result == load(name)
  {
  }

  /** `_load_whisper_model` of the refactored processor: the configured model
      through the cache; an error is logged and raised again. */
  function LoadCached<M>(c: Cache<M>, configured: string, load: string -> Outcome<M>): (l: Lookup<M>)
    ensures l.result.Raised? ==> load(configured).Raised? && l.cache == c
  {
    GetModel(c, configured, load)
  }

  /** `_load_whisper_model` of the first processor: the configured model,
      else `'tiny'`, else the exception of the `'tiny'` load. */
  function LoadWithFallback<M>(configured: string, load: string -> Outcome<M>): (r: Outcome<M>)
    ensures r.Done? <==> load(configured).Done? || load("tiny").Done?
    ensures load(configured).Done? ==> r == load(configured)
    ensures load(configured).Raised? ==> r == load("tiny")
  {
    match load(configured)
    case Done(m) => Done(m)
    case Raised(_) => load("tiny")
  }
}
