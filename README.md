# sdlpp_ttf FontManager: a verified model of the font cache

`sdl::ttf::FontManager` (`ttf/FontManager.h`) hands out SDL_ttf fonts by file
name and point size. It keeps them in the table `fonts_`, a
`map<string, map<int, Font>>`. `FontManager::font(fileName, pointSize)` looks
the name up, then the size. On a hit it returns the stored `Font`. On a miss it
constructs `Font(fileName, pointSize)` and inserts it: into the name's existing
size map when the name is known, or into a new one-entry size map stored under
the name when it is not. It then returns the new font. Entries are never
erased or overwritten.

The model is in two files:

- `wrappers.dfy`: module `Wrappers`, the `Option` type.
- `font_manager.dfy`: module `Ttf`.
  - `FontHandle` is an abstract type that stands for the C++ class `Font`.
  - The `Font` constructor is a loader function `(string, int, nat) -> Option<FontHandle>`. `None` stands for a constructor that throws. The third argument is the number of constructions before this one, failed ones included. Each construction opens the file afresh, so two constructions for the same key may give different fonts, or one may fail where the other succeeds.
  - `Step` is one call of `font` as a function of the table and of the number of earlier constructions.
  - `Run` is a sequence of calls, defined by its last call.
  - The class `FontManager` holds the table in the field `fonts` and updates it in place in the method `Font`. Its field `constructed` counts the constructions so far, failed ones included, and is what the loader is told.
  - Its ghost fields log the requests, the results and the key of every construction, failed ones included. `Valid()` ties them to `Run` from an empty table.

The two scenario methods play through two call sequences on a fresh manager.
In the first, `arial.ttf` is requested at 12 points twice and at 24 points once. The second request gets the first construction's font, although a second construction could give a different one, and there are only two constructions.
In the second, `missing.ttf` fails to load and is constructed again on the next request.

`pointSize` is taken as any `int`, as the code accepts it; nothing in the code
rejects a non-positive size.

## Model

| member | source | states |
|---|---|---|
| `Ttf.Insert` | ttf/FontManager.h:67-74 | `std::map::insert` adds the key, keeps every existing entry unchanged, and stores the new value only when the key was absent |
| `Ttf.Step` | ttf/FontManager.h:59-77 | a font is constructed iff the key is not cached; a hit returns the stored font and leaves the table as it is; a miss returns the font just constructed; after a success the key maps to the returned font; a failed construction leaves the table unchanged; no entry is erased or overwritten; no empty size map is created |
| `Ttf.StepHit` | ttf/FontManager.h:60-64 | on a hit the call returns `fonts_[name][size]`, constructs nothing, and the table is unchanged |
| `Ttf.StepMissKnownName` | ttf/FontManager.h:65-68 | a known name with an unknown size constructs once; the table becomes the old one with exactly `size -> font` added to that name's size map, and the font is returned |
| `Ttf.StepMissUnknownName` | ttf/FontManager.h:70-75 | an unknown name constructs once; the table becomes the old one with a new size map holding exactly `size -> font` under the name, and the font is returned |
| `Ttf.StepLookup` | ttf/FontManager.h:59-77 | a call changes what the table holds for no key but the requested one, and that key then holds the returned font |
| `Ttf.StepKeys` | ttf/FontManager.h:66-74 | the set of cached keys grows by exactly the requested key after a success and stays the same otherwise |
| `Ttf.StepTwice` | ttf/FontManager.h:59-77 | a second call with the same key returns the first call's font without constructing and without changing the table; if the first construction failed, the second call constructs again and returns what that next construction gives |
| `Ttf.StepMadeByLoads` | ttf/FontManager.h:66-74 | if every stored font is the one some logged construction made for its key, that stays true after a call, with the call's construction appended to the log |
| `Ttf.Run` | ttf/FontManager.h:59-77 | over any sequence of calls: one result per call, no more constructions than calls, no entry erased or overwritten, no empty size map created |
| `Ttf.RunCachedStays` | ttf/FontManager.h:60-64 | every call in a run for a key that was cached before the run returns the stored font, whatever a construction would give |
| `Ttf.RunResultsKept` | ttf/FontManager.h:59-77 | every font a run returned is still stored under its key when the run ends |
| `Ttf.RunFirstFontSticks` | ttf/FontManager.h:59-77 | whatever the constructions give: once a call for a key has returned a font, every later call in the run for that key returns that same font |
| `Ttf.RunNeverLoadsCached` | ttf/FontManager.h:60-64 | no font is constructed for a key that was cached before the run |
| `Ttf.RunLoadsKept` | ttf/FontManager.h:66-74 | every successful construction in a run left its font in the table, stored under its key, when the run ends |
| `Ttf.RunLoadsOncePerKey` | ttf/FontManager.h:59-77 | in the log of constructions, a key occurs again only after a construction for it that failed |
| `Ttf.CachedAfterStep` | ttf/FontManager.h:66-74 | when the construction for the last requested key succeeds, the call adds exactly that key to the cached keys |
| `Ttf.RunKeys` | ttf/FontManager.h:66-74 | when the loader never fails on a requested key, a key is cached after a run iff it was cached before it or was requested |
| `Ttf.RunLoadCount` | ttf/FontManager.h:59-77 | when the loader never fails on a requested key, the number of constructions equals the number of distinct requested keys that were not cached before |
| `Ttf.ConsistentStep` | ttf/FontManager.h:59-77 | serving one more request keeps the manager's trace equal to the run of all its requests from an empty table, with no empty size map and every stored font made by a logged construction |
| `Ttf.FontManager.constructor` | ttf/FontManager.h:83 | a new manager has an empty table, no constructions and an empty history, and satisfies its invariant |
| `Ttf.FontManager.Font` | ttf/FontManager.h:59-77 | the call returns, and updates `fonts` to, what `Step` gives for the old table and construction count; the construction log and count grow exactly when a font was constructed; the invariant (table = run of all requests from empty, no empty size map, every stored font made by a logged construction for its key) is kept |
| `Ttf.ManagerHistory` | ttf/FontManager.h:59-77 | for any manager, every font it returned was made by a logged construction for that call's key; every call for a key after its first successful one returned that call's font; no key was constructed again after a successful construction; when the loader never fails on a requested key, there was exactly one construction per distinct key requested |
| `Ttf.ArialScenario` | ttf/FontManager.h:59-77 | `arial.ttf` at 12 twice and at 24 once: the first two results are the first construction's font, the third is the second construction's font, and the constructions are exactly one for (arial.ttf, 12) and one for (arial.ttf, 24) |
| `Ttf.MissingFontScenario` | ttf/FontManager.h:65-75 | a font whose construction fails is not cached, and the next request for it constructs again and returns what that construction gives |

## Left out

- `FontManager::instance()` (ttf/FontManager.h:44-47), the function-local static singleton: the model constructs a manager explicitly.
- The SDL_ttf subsystem start-up in the constructor (ttf/FontManager.h:83): a foreign call with no effect on the table.
- The contents of `Font` and its constructor (ttf/FontManager.h:28): `sdlpp_ttf/ttf/Font.h` is not part of this model. The constructor is a loader parameter and `FontHandle` an abstract value compared by equality. Copying and reference counting of `Font` are not modelled.
- The state a construction depends on (the file's contents at that moment, the SDL_ttf library's state) is not modelled itself. The loader's third argument, the number of earlier constructions, stands for it, so the model lets any two constructions differ.
- The counter `constructed` is one the model adds so that the loader can be told which construction it is; `FontManager` has no such field.
- The private copy constructor and assignment operator (ttf/FontManager.h:90, 99) and the commented-out destructor (ttf/FontManager.h:49): they have no behaviour.
- Thread safety: the code has no locking, and the model is sequential.
- The 32-bit width of `pointSize`: sizes are only compared as map keys, so `int` stands for it.
- The ordering of `std::map`: the code never iterates over the table, so Dafny's unordered `map` stands for it.
