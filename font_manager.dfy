/**
 * The sdl::ttf::FontManager font cache: a two-level table from file name to
 * point size to loaded Font, filled on demand by the Font loader.
 */
module Ttf {
  import opened Wrappers

  /** A loaded font, the C++ class Font. Only its identity matters to the cache. */
  type FontHandle

  /** FontManager::FontSizeMap: point size to font. */
  type FontSizeMap = map<int, FontHandle>

  /** FontManager::FontMap: file name to the fonts loaded from that file. */
  type FontMap = map<string, FontSizeMap>

  /**
   * The constructor Font(fileName, pointSize), which opens the file through
   * SDL_ttf. None stands for a constructor that throws. The third argument
   * counts the constructions made before this one, failed ones included:
   * each construction builds
   * a new object and reads the file afresh, so two constructions for the same
   * key may give different fonts, or one may fail where the other succeeds.
   */
  type Loader = (string, int, nat) -> Option<FontHandle>

  /** A (file name, point size) pair: the key of one cache entry. */
  type Key = (string, int)

  // ---------------------------------------------------------------------
  // The table and its invariants
  // ---------------------------------------------------------------------

  /** What "cached" means throughout: the font that the two nested finds reach for (name, size), if any. */
  function Lookup(fonts: FontMap, name: string, size: int): Option<FontHandle>
  {
    if name in fonts && size in fonts[name] then Some(fonts[name][size]) else None
  }

  /** Every (name, size) pair that has a font in the table. */
  ghost function Keys(fonts: FontMap): set<Key>
  {
    set n, s | n in fonts && s in fonts[n] :: (n, s)
  }

  /** No file name maps to an empty size map. */
  ghost predicate NoEmptySizeMap(fonts: FontMap)
  {
    forall n :: n in fonts ==> fonts[n] != map[]
  }

  /**
   * Every cached font is the one some construction in the log `made` produced
   * for its key: the i-th entry of the log is the i-th construction.
   */
  ghost predicate MadeByLoads(fonts: FontMap, load: Loader, made: seq<Key>)
  {
    forall n, s :: n in fonts && s in fonts[n] ==>
      exists i :: 0 <= i < |made| && made[i] == (n, s) && load(n, s, i) == Some(fonts[n][s])
  }

  /** Every entry of `before` is in `after` with the same font: nothing erased, nothing overwritten. */
  ghost predicate Extends(before: FontMap, after: FontMap)
  {
    forall n, s :: n in before && s in before[n] ==>
      n in after && s in after[n] && after[n][s] == before[n][s]
  }

  /**
   * std::map::insert: adds the pair when the key is absent and leaves the
   * map as it is when the key is already there.
   */
  function Insert<K, V>(m: map<K, V>, k: K, v: V): (r: map<K, V>)
    ensures r.Keys == m.Keys + {k}
    ensures forall j :: j in m ==> j in r && r[j] == m[j]
    ensures k !in m ==> r[k] == v
  {
    if k in m then m else m[k := v]
  }

  // ---------------------------------------------------------------------
  // One call of FontManager::font
  // ---------------------------------------------------------------------

  /** What one call returns, the table after it, and whether the loader ran. */
  datatype Outcome = Outcome(font: Option<FontHandle>, fonts: FontMap, loaded: bool)

  /**
   * FontManager::font as a function of the table before the call, with
   * `made` constructions done before it: a hit returns the stored font; a
   * miss constructs the font first and inserts it, into the name's size map
   * when the name is known and into a new one-entry size map otherwise. A
   * failing construction inserts nothing.
   */
  function Step(fonts: FontMap, load: Loader, made: nat, name: string, size: int): (o: Outcome)
    ensures o.loaded <==> Lookup(fonts, name, size).None?
    ensures !o.loaded ==> o.fonts == fonts && o.font == Lookup(fonts, name, size)
    ensures o.loaded ==> o.font == load(name, size, made)
    ensures o.font.Some? ==> Lookup(o.fonts, name, size) == o.font
    ensures o.font.None? ==> o.fonts == fonts
    ensures Extends(fonts, o.fonts)
    ensures NoEmptySizeMap(fonts) ==> NoEmptySizeMap(o.fonts)
  {
    if name in fonts then
      var sizes := fonts[name];
      if size in sizes then
        Outcome(Some(sizes[size]), fonts, false)
      else
        var font := load(name, size, made);
        if font.Some? then Outcome(font, fonts[name := Insert(sizes, size, font.value)], true)
        else Outcome(None, fonts, true)
    else
      var font := load(name, size, made);
      if font.Some? then
        var sizeMap := Insert(map[], size, font.value);
        Outcome(font, Insert(fonts, name, sizeMap), true)
      else Outcome(None, fonts, true)
  }

  /** A hit returns the stored font, does not load, and changes nothing. */
  lemma StepHit(fonts: FontMap, load: Loader, made: nat, name: string, size: int)
    requires name in fonts && size in fonts[name]
    ensures Step(fonts, load, made, name, size) == Outcome(Some(fonts[name][size]), fonts, false)
  {
  }

  /**
   * A miss on a known name constructs once and adds exactly size -> font to
   * that name's size map.
   */
  lemma StepMissKnownName(fonts: FontMap, load: Loader, made: nat, name: string, size: int)
    requires name in fonts && size !in fonts[name]
    ensures var o := Step(fonts, load, made, name, size);
      && o.loaded && o.font == load(name, size, made)
      && o.fonts == if o.font.Some? then fonts[name := fonts[name][size := o.font.value]] else fonts
  {
  }

  /**
   * A miss on an unknown name constructs once and adds a new size map
   * holding exactly size -> font.
   */
  lemma StepMissUnknownName(fonts: FontMap, load: Loader, made: nat, name: string, size: int)
    requires name !in fonts
    ensures var o := Step(fonts, load, made, name, size);
      && o.loaded && o.font == load(name, size, made)
      && o.fonts == if o.font.Some? then fonts[name := map[size := o.font.value]] else fonts
  {
  }

  /** A call changes the table at most at the requested key, which then holds the returned font. */
  lemma StepLookup(fonts: FontMap, load: Loader, made: nat, name: string, size: int, n: string, s: int)
    ensures var o := Step(fonts, load, made, name, size);
      Lookup(o.fonts, n, s) == if (n, s) == (name, size) && o.font.Some? then o.font else Lookup(fonts, n, s)
  {
  }

  /** The keys of the table grow by exactly the requested key on a successful call. */
  lemma StepKeys(fonts: FontMap, load: Loader, made: nat, name: string, size: int)
    ensures var o := Step(fonts, load, made, name, size);
      Keys(o.fonts) == if o.font.Some? then Keys(fonts) + {(name, size)} else Keys(fonts)
  {
  }

  /** Keys is the set of pairs that Lookup finds. */
  lemma InKeys(fonts: FontMap, k: Key)
    ensures k in Keys(fonts) <==> Lookup(fonts, k.0, k.1).Some?
  {
  }

  /**
   * A second call with the same key returns the font of the first and does
   * not construct another; after a failed construction the second call
   * constructs again.
   */
  lemma StepTwice(fonts: FontMap, load: Loader, made: nat, name: string, size: int)
    ensures var first := Step(fonts, load, made, name, size);
      var second := Step(first.fonts, load, made + (if first.loaded then 1 else 0), name, size);
      && (first.font.Some? ==> second == Outcome(first.font, first.fonts, false))
      && (first.font.None? ==> second.loaded && second.font == load(name, size, made + 1))
  {
  }

  /**
   * A call keeps every cached font the product of a logged construction:
   * the font it constructs is the one made at position |log| of the log.
   */
  lemma {:induction false} StepMadeByLoads(fonts: FontMap, load: Loader, log: seq<Key>, name: string, size: int)
    requires MadeByLoads(fonts, load, log)
    ensures var o := Step(fonts, load, |log|, name, size);
      MadeByLoads(o.fonts, load, log + (if o.loaded then [(name, size)] else []))
  {
    var o := Step(fonts, load, |log|, name, size);
    var log' := log + (if o.loaded then [(name, size)] else []);
    StepKeys(fonts, load, |log|, name, size);
    forall n, s | n in o.fonts && s in o.fonts[n]
      ensures exists i :: 0 <= i < |log'| && log'[i] == (n, s) && load(n, s, i) == Some(o.fonts[n][s])
    {
      InKeys(o.fonts, (n, s));
      InKeys(fonts, (n, s));
      if Lookup(fonts, n, s).Some? {
        var i :| 0 <= i < |log| && log[i] == (n, s) && load(n, s, i) == Some(fonts[n][s]);
        assert log'[i] == log[i];
      } else {
        assert (n, s) == (name, size) && o.loaded;
        assert log'[|log|] == (n, s);
      }
    }
  }

  // ---------------------------------------------------------------------
  // A sequence of calls
  // ---------------------------------------------------------------------

  /** The table after a run of calls, what each call returned, and the key of every construction, failed ones included. */
  datatype Trace = Trace(fonts: FontMap, results: seq<Option<FontHandle>>, loads: seq<Key>)

  /** A trace of calls followed by one more call's outcome. */
  function Snoc(t: Trace, o: Outcome, k: Key): Trace
  {
    Trace(o.fonts, t.results + [o.font], t.loads + (if o.loaded then [k] else []))
  }

  /**
   * The calls FontManager::font(reqs[0]), FontManager::font(reqs[1]), ... on
   * one manager, after `made` constructions: each call is told how many
   * constructions came before it.
   */
  function Run(fonts: FontMap, load: Loader, made: nat, reqs: seq<Key>): (t: Trace)
    ensures |t.results| == |reqs|
    ensures |t.loads| <= |reqs|
    ensures Extends(fonts, t.fonts)
    ensures NoEmptySizeMap(fonts) ==> NoEmptySizeMap(t.fonts)
    decreases |reqs|
  {
    if reqs == [] then Trace(fonts, [], [])
    else
      var t := Run(fonts, load, made, reqs[..|reqs| - 1]);
      var k := reqs[|reqs| - 1];
      Snoc(t, Step(t.fonts, load, made + |t.loads|, k.0, k.1), k)
  }

  /**
   * A key cached before a run is answered from the table by every call for
   * it: each such call returns the stored font, whatever a construction
   * would give.
   */
  lemma {:induction false} RunCachedStays(fonts: FontMap, load: Loader, made: nat, reqs: seq<Key>, k: Key)
    requires Lookup(fonts, k.0, k.1).Some?
    ensures var t := Run(fonts, load, made, reqs);
      forall i :: 0 <= i < |reqs| && reqs[i] == k ==> t.results[i] == Lookup(fonts, k.0, k.1)
    decreases |reqs|
  {
    if reqs != [] {
      var pre := reqs[..|reqs| - 1];
      var t' := Run(fonts, load, made, pre);
      var t := Run(fonts, load, made, reqs);
      RunCachedStays(fonts, load, made, pre, k);
      assert Lookup(t'.fonts, k.0, k.1) == Lookup(fonts, k.0, k.1);
      forall i | 0 <= i < |reqs| && reqs[i] == k ensures t.results[i] == Lookup(fonts, k.0, k.1) {
        if i < |pre| {
          assert pre[i] == reqs[i] && t.results[i] == t'.results[i];
        }
      }
    }
  }

  /** Every font a run hands out is still in the table, under its key, when the run ends. */
  lemma {:induction false} RunResultsKept(fonts: FontMap, load: Loader, made: nat, reqs: seq<Key>)
    ensures var t := Run(fonts, load, made, reqs);
      forall i :: 0 <= i < |reqs| && t.results[i].Some? ==> Lookup(t.fonts, reqs[i].0, reqs[i].1) == t.results[i]
    decreases |reqs|
  {
    if reqs != [] {
      var pre := reqs[..|reqs| - 1];
      var t' := Run(fonts, load, made, pre);
      var t := Run(fonts, load, made, reqs);
      RunResultsKept(fonts, load, made, pre);
      forall i | 0 <= i < |reqs| && t.results[i].Some?
        ensures Lookup(t.fonts, reqs[i].0, reqs[i].1) == t.results[i]
      {
        if i < |pre| {
          assert pre[i] == reqs[i] && t.results[i] == t'.results[i];
          assert Lookup(t'.fonts, reqs[i].0, reqs[i].1) == t.results[i];
        }
      }
    }
  }

  /** Later calls for a key return the font of the first call for it that succeeded. */
  ghost predicate FirstFontSticks(reqs: seq<Key>, results: seq<Option<FontHandle>>)
    requires |results| == |reqs|
  {
    forall i, j :: 0 <= i < j < |reqs| && reqs[i] == reqs[j] && results[i].Some? ==> results[j] == results[i]
  }

  /**
   * Whatever the constructions give, once a call for a key has returned a
   * font, every later call for that key returns the same font: it comes from
   * the table, not from another construction.
   */
  lemma {:induction false} RunFirstFontSticks(fonts: FontMap, load: Loader, made: nat, reqs: seq<Key>)
    ensures FirstFontSticks(reqs, Run(fonts, load, made, reqs).results)
    decreases |reqs|
  {
    if reqs != [] {
      var pre := reqs[..|reqs| - 1];
      var t' := Run(fonts, load, made, pre);
      var t := Run(fonts, load, made, reqs);
      RunFirstFontSticks(fonts, load, made, pre);
      RunResultsKept(fonts, load, made, pre);
      forall i, j | 0 <= i < j < |reqs| && reqs[i] == reqs[j] && t.results[i].Some?
        ensures t.results[j] == t.results[i]
      {
        assert pre[i] == reqs[i] && t.results[i] == t'.results[i];
        if j < |pre| {
          assert pre[j] == reqs[j] && t.results[j] == t'.results[j];
        } else {
          assert Lookup(t'.fonts, reqs[j].0, reqs[j].1) == t'.results[i];
        }
      }
    }
  }

  /** The loader never runs on a key that the table already held before the run. */
  lemma {:induction false} RunNeverLoadsCached(fonts: FontMap, load: Loader, made: nat, reqs: seq<Key>)
    ensures forall k :: k in Run(fonts, load, made, reqs).loads ==> Lookup(fonts, k.0, k.1).None?
    decreases |reqs|
  {
    if reqs != [] {
      var pre := reqs[..|reqs| - 1];
      var t' := Run(fonts, load, made, pre);
      var k := reqs[|reqs| - 1];
      RunNeverLoadsCached(fonts, load, made, pre);
      if Lookup(fonts, k.0, k.1).Some? {
        assert Lookup(t'.fonts, k.0, k.1).Some?;
      }
    }
  }

  /**
   * Every construction in a log, counted from `made`, that succeeded has its
   * font in the table.
   */
  ghost predicate LoadsKept(fonts: FontMap, loads: seq<Key>, load: Loader, made: nat)
  {
    forall i :: 0 <= i < |loads| && load(loads[i].0, loads[i].1, made + i).Some? ==>
      Lookup(fonts, loads[i].0, loads[i].1) == load(loads[i].0, loads[i].1, made + i)
  }

  /**
   * Every construction in a run that succeeded put its font in the table,
   * where it still is when the run ends.
   */
  lemma {:induction false} RunLoadsKept(fonts: FontMap, load: Loader, made: nat, reqs: seq<Key>)
    ensures var t := Run(fonts, load, made, reqs); LoadsKept(t.fonts, t.loads, load, made)
    decreases |reqs|
  {
    if reqs != [] {
      var pre := reqs[..|reqs| - 1];
      var t' := Run(fonts, load, made, pre);
      var t := Run(fonts, load, made, reqs);
      RunLoadsKept(fonts, load, made, pre);
      forall i | 0 <= i < |t.loads| && load(t.loads[i].0, t.loads[i].1, made + i).Some?
        ensures Lookup(t.fonts, t.loads[i].0, t.loads[i].1) == load(t.loads[i].0, t.loads[i].1, made + i)
      {
        if i < |t'.loads| {
          var key := t'.loads[i];
          assert t.loads[i] == key;
          assert load(key.0, key.1, made + i).Some?;
          assert Lookup(t'.fonts, key.0, key.1) == load(key.0, key.1, made + i);
        }
      }
    }
  }

  /**
   * In a log of constructions starting after `made` earlier ones, a key
   * occurs again only after a construction for it that failed.
   */
  ghost predicate LoadsOncePerKey(loads: seq<Key>, load: Loader, made: nat)
  {
    forall i, j :: 0 <= i < j < |loads| && loads[i] == loads[j] ==> load(loads[i].0, loads[i].1, made + i).None?
  }

  /** A key whose construction succeeded is never constructed again: at most one font is created per key. */
  lemma {:induction false} RunLoadsOncePerKey(fonts: FontMap, load: Loader, made: nat, reqs: seq<Key>)
    ensures LoadsOncePerKey(Run(fonts, load, made, reqs).loads, load, made)
    decreases |reqs|
  {
    if reqs != [] {
      var pre := reqs[..|reqs| - 1];
      var t' := Run(fonts, load, made, pre);
      var k := reqs[|reqs| - 1];
      var o := Step(t'.fonts, load, made + |t'.loads|, k.0, k.1);
      RunLoadsOncePerKey(fonts, load, made, pre);
      if o.loaded {
        RunLoadsKept(fonts, load, made, pre);
        assert forall i :: 0 <= i < |t'.loads| && t'.loads[i] == k ==> load(k.0, k.1, made + i).None?;
        OncePerKeySnoc(t'.loads, k, load, made);
      }
    }
  }

  /** A construction after a once-per-key log keeps it so when no earlier construction for its key succeeded. */
  lemma OncePerKeySnoc(loads: seq<Key>, k: Key, load: Loader, made: nat)
    requires LoadsOncePerKey(loads, load, made)
    requires forall i :: 0 <= i < |loads| && loads[i] == k ==> load(k.0, k.1, made + i).None?
    ensures LoadsOncePerKey(loads + [k], load, made)
  {
    var ls := loads + [k];
    forall i, j | 0 <= i < j < |ls| && ls[i] == ls[j] ensures load(ls[i].0, ls[i].1, made + i).None? {
      assert ls[i] == loads[i];
      if j < |loads| {
        assert ls[j] == loads[j];
      }
    }
  }

  /** The set of keys requested by a run. */
  ghost function Requested(reqs: seq<Key>): set<Key>
  {
    set i | 0 <= i < |reqs| :: reqs[i]
  }

  /** Requested is the set of the run's elements. */
  lemma InRequested(reqs: seq<Key>, k: Key)
    ensures k in Requested(reqs) <==> k in reqs
  {
    if k in reqs {
      var i :| 0 <= i < |reqs| && reqs[i] == k;
    }
  }

  /** The keys of a non-empty run are the keys of its prefix and its last key. */
  lemma RequestedSnoc(reqs: seq<Key>)
    requires reqs != []
    ensures Requested(reqs) == Requested(reqs[..|reqs| - 1]) + {reqs[|reqs| - 1]}
  {
    var pre := reqs[..|reqs| - 1];
    forall k | k in Requested(reqs) ensures k in Requested(pre) + {reqs[|reqs| - 1]} {
      var i :| 0 <= i < |reqs| && reqs[i] == k;
      if i < |pre| {
        assert pre[i] == k;
      }
    }
    forall k | k in Requested(pre) ensures k in Requested(reqs) {
      var i :| 0 <= i < |pre| && pre[i] == k;
      assert reqs[i] == k;
    }
  }

  /** No construction for a requested key ever fails. */
  ghost predicate NeverFails(load: Loader, reqs: seq<Key>)
  {
    forall i, c: nat :: 0 <= i < |reqs| ==> load(reqs[i].0, reqs[i].1, c).Some?
  }

  /** A run whose constructions never fail has a prefix whose constructions never fail. */
  lemma NeverFailsPrefix(load: Loader, reqs: seq<Key>)
    requires reqs != [] && NeverFails(load, reqs)
    ensures NeverFails(load, reqs[..|reqs| - 1])
  {
    var pre := reqs[..|reqs| - 1];
    forall i, c: nat | 0 <= i < |pre| ensures load(pre[i].0, pre[i].1, c).Some? {
      assert pre[i] == reqs[i];
    }
  }

  /** The keys cached in `after` are those cached in `before` and those requested. */
  ghost predicate CachedExactly(after: FontMap, before: FontMap, reqs: seq<Key>)
  {
    forall k: Key :: Lookup(after, k.0, k.1).Some? <==> Lookup(before, k.0, k.1).Some? || k in reqs
  }

  /** When no construction fails, the keys cached after a run are those cached before it and every requested key. */
  lemma {:induction false} RunKeys(fonts: FontMap, load: Loader, made: nat, reqs: seq<Key>)
    requires NeverFails(load, reqs)
    ensures CachedExactly(Run(fonts, load, made, reqs).fonts, fonts, reqs)
    decreases |reqs|
  {
    if reqs != [] {
      NeverFailsPrefix(load, reqs);
      var t' := Run(fonts, load, made, reqs[..|reqs| - 1]);
      var k := reqs[|reqs| - 1];
      assert load(k.0, k.1, made + |t'.loads|).Some?;
      RunLastFonts(fonts, load, made, reqs);
      RunKeys(fonts, load, made, reqs[..|reqs| - 1]);
      CachedAfterStep(fonts, t'.fonts, load, made + |t'.loads|, reqs);
    }
  }

  /**
   * The table after a non-empty run is the one its last call leaves: one
   * unfolding of Run, stated apart so that RunKeys need not unfold Run itself.
   */
  lemma RunLastFonts(fonts: FontMap, load: Loader, made: nat, reqs: seq<Key>)
    requires reqs != []
    ensures var t' := Run(fonts, load, made, reqs[..|reqs| - 1]);
      var k := reqs[|reqs| - 1];
      Run(fonts, load, made, reqs).fonts == Step(t'.fonts, load, made + |t'.loads|, k.0, k.1).fonts
  {
  }

  /** A call for the last key of a run, whose construction succeeds, adds exactly that key to the cached keys. */
  lemma CachedAfterStep(before: FontMap, fonts: FontMap, load: Loader, made: nat, reqs: seq<Key>)
    requires reqs != [] && load(reqs[|reqs| - 1].0, reqs[|reqs| - 1].1, made).Some?
    requires CachedExactly(fonts, before, reqs[..|reqs| - 1])
    ensures var k := reqs[|reqs| - 1];
      CachedExactly(Step(fonts, load, made, k.0, k.1).fonts, before, reqs)
  {
    var k := reqs[|reqs| - 1];
    var o := Step(fonts, load, made, k.0, k.1);
    assert reqs == reqs[..|reqs| - 1] + [k];
    forall x: Key ensures Lookup(o.fonts, x.0, x.1).Some? <==> Lookup(before, x.0, x.1).Some? || x in reqs {
      StepLookup(fonts, load, made, k.0, k.1, x.0, x.1);
    }
  }

  /**
   * When no construction fails, the run constructs exactly once per
   * distinct requested key that was not already cached.
   */
  lemma {:induction false} RunLoadCount(fonts: FontMap, load: Loader, made: nat, reqs: seq<Key>)
    requires NeverFails(load, reqs)
    ensures |Run(fonts, load, made, reqs).loads| == |Requested(reqs) - Keys(fonts)|
    decreases |reqs|
  {
    if reqs != [] {
      var pre := reqs[..|reqs| - 1];
      var t' := Run(fonts, load, made, pre);
      var k := reqs[|reqs| - 1];
      NeverFailsPrefix(load, reqs);
      RunLoadCount(fonts, load, made, pre);
      RunKeys(fonts, load, made, pre);
      RequestedSnoc(reqs);
      InKeys(fonts, k);
      InRequested(pre, k);
      CountStep(Requested(reqs), Requested(pre), Keys(fonts), k);
    }
  }

  /** The set arithmetic of one step of RunLoadCount. */
  lemma CountStep(requested: set<Key>, earlier: set<Key>, before: set<Key>, k: Key)
    requires requested == earlier + {k}
    ensures |requested - before| == if k in before + earlier then |earlier - before| else |earlier - before| + 1
  {
    if k in before + earlier {
      assert requested - before == earlier - before;
    } else {
      assert requested - before == (earlier - before) + {k};
    }
  }

  /**
   * A trace is what a manager holds after serving `requests` from an empty
   * table: the run itself, with no empty size map and every stored font the
   * one a logged construction made for its key.
   */
  ghost predicate Consistent(load: Loader, requests: seq<Key>, t: Trace)
  {
    && Run(map[], load, 0, requests) == t
    && NoEmptySizeMap(t.fonts)
    && MadeByLoads(t.fonts, load, t.loads)
  }

  /** Serving one more request, with the constructions counted so far, keeps a trace consistent. */
  lemma ConsistentStep(load: Loader, requests: seq<Key>, t: Trace, k: Key)
    requires Consistent(load, requests, t)
    ensures Consistent(load, requests + [k], Snoc(t, Step(t.fonts, load, |t.loads|, k.0, k.1), k))
  {
    assert (requests + [k])[..|requests|] == requests;
    StepMadeByLoads(t.fonts, load, t.loads, k.0, k.1);
  }

  // ---------------------------------------------------------------------
  // The manager object
  // ---------------------------------------------------------------------

  /**
   * sdl::ttf::FontManager: the table fonts_, filled in place. `constructed`
   * counts the constructions so far, failed ones included, and is what the
   * loader is told; the ghost fields log every request, what it returned,
   * and the key of every construction.
   */
  class FontManager {
    const load: Loader
    var fonts: FontMap
    var constructed: nat
    ghost var requests: seq<Key>
    ghost var results: seq<Option<FontHandle>>
    ghost var loads: seq<Key>

    /**
     * The table is the one the requests so far build from an empty table; no
     * empty size map is stored, and every stored font is the one a logged
     * construction made for its key.
     */
    ghost predicate Valid()
      reads this
    {
      && Consistent(load, requests, Trace(fonts, results, loads))
      && constructed == |loads|
    }

    /** FontManager(): starts with an empty table. */
    constructor (load: Loader)
      ensures Valid()
      ensures this.load == load && fonts == map[] && constructed == 0
      ensures requests == [] && results == [] && loads == []
    {
      this.load := load;
      fonts := map[];
      constructed := 0;
      requests, results, loads := [], [], [];
    }

    /**
     * FontManager::font: the stored font on a hit; on a miss the font is
     * constructed first and inserted only when construction succeeds.
     */
    method Font(name: string, size: int) returns (r: Option<FontHandle>)
      requires Valid()
      modifies this
      ensures Valid()
      ensures var o := Step(old(fonts), load, old(constructed), name, size);
        && r == o.font
        && fonts == o.fonts
        && loads == old(loads) + (if o.loaded then [(name, size)] else [])
        && constructed == old(constructed) + (if o.loaded then 1 else 0)
      ensures requests == old(requests) + [(name, size)]
      ensures results == old(results) + [r]
    {
      ghost var o := Step(fonts, load, constructed, name, size);
      ConsistentStep(load, requests, Trace(fonts, results, loads), (name, size));
      ghost var log := loads + (if o.loaded then [(name, size)] else []);
      if name in fonts {
        var sizes := fonts[name];
        if size in sizes {
          r := Some(sizes[size]);
        } else {
          var font := load(name, size, constructed);
          constructed, loads := constructed + 1, loads + [(name, size)];
          if font.Some? {
            sizes := Insert(sizes, size, font.value);
            fonts := fonts[name := sizes];
          }
          r := font;
        }
      } else {
        var font := load(name, size, constructed);
        constructed, loads := constructed + 1, loads + [(name, size)];
        if font.Some? {
          var sizeMap: FontSizeMap := map[];
          sizeMap := Insert(sizeMap, size, font.value);
          fonts := Insert(fonts, name, sizeMap);
        }
        r := font;
      }
      assert r == o.font && fonts == o.fonts && loads == log;
      requests, results := requests + [(name, size)], results + [r];
    }
  }

  /**
   * Whatever sequence of calls a manager has served: every font it returned
   * was made by a logged construction for that call's key; every call for a
   * key after its first successful one returned that call's font; no key was
   * constructed again after a successful construction; and, when no
   * construction failed, there was exactly one per distinct key.
   */
  lemma ManagerHistory(m: FontManager)
    requires m.Valid()
    ensures forall i :: 0 <= i < |m.requests| && m.results[i].Some? ==>
      exists j :: 0 <= j < |m.loads| && m.loads[j] == m.requests[i]
        && m.load(m.requests[i].0, m.requests[i].1, j) == m.results[i]
    ensures FirstFontSticks(m.requests, m.results)
    ensures LoadsOncePerKey(m.loads, m.load, 0)
    ensures NeverFails(m.load, m.requests) ==> |m.loads| == |Requested(m.requests)|
  {
    RunResultsKept(map[], m.load, 0, m.requests);
    RunFirstFontSticks(map[], m.load, 0, m.requests);
    RunLoadsOncePerKey(map[], m.load, 0, m.requests);
    if NeverFails(m.load, m.requests) {
      RunLoadCount(map[], m.load, 0, m.requests);
      assert Keys(map[]) == {};
    }
  }

  /**
   * Two requests for arial.ttf at 12 points and one at 24 on a fresh
   * manager: the second request gets the first construction's font although
   * a second construction could give another, and there are two constructions.
   */
  method ArialScenario(load: Loader) returns (first: Option<FontHandle>, second: Option<FontHandle>, third: Option<FontHandle>, ghost loads: seq<Key>)
    requires load("arial.ttf", 12, 0).Some?
    ensures first == second == load("arial.ttf", 12, 0)
    ensures third == load("arial.ttf", 24, 1)
    ensures loads == [("arial.ttf", 12), ("arial.ttf", 24)]
  {
    var manager := new FontManager(load);
    first := manager.Font("arial.ttf", 12);
    second := manager.Font("arial.ttf", 12);
    third := manager.Font("arial.ttf", 24);
    loads := manager.loads;
  }

  /**
   * A font whose construction fails is not cached: the next request for it
   * constructs again, and gets whatever that construction gives.
   */
  method MissingFontScenario(load: Loader) returns (first: Option<FontHandle>, second: Option<FontHandle>, ghost loads: seq<Key>, cached: bool)
    requires load("missing.ttf", 10, 0).None?
    ensures first.None?
    ensures !cached
    ensures second == load("missing.ttf", 10, 1)
    ensures loads == [("missing.ttf", 10), ("missing.ttf", 10)]
  {
    var manager := new FontManager(load);
    first := manager.Font("missing.ttf", 10);
    cached := Lookup(manager.fonts, "missing.ttf", 10).Some?;
    second := manager.Font("missing.ttf", 10);
    loads := manager.loads;
  }
}
