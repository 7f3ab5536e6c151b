/** The reference worklist of the dependency inspection: which references are visited, and when it gives up. */
module FieldWorklist {
  import opened Options

  type Ref = string
  type File = string

  const LIMIT: nat := 5000

  /** The authored file a reference's view names; several candidates are an error. */
  datatype Lookup = NoFile | OneFile(file: File) | SeveralFiles

  /** The authored sources, reduced to what the worklist reads from them. */
  datatype Catalog = Catalog(
    lookup: Ref -> Lookup,
    workbook: Ref -> Option<seq<Ref>>,   // references of a document-local definition
    section: Ref -> Option<seq<Ref>>,    // references of the definition in the view's dimensions or measures
    readable: File -> bool,              // both sides of the file parse, and its destination is not ambiguous
    settings: File -> seq<Ref>)          // references in the view's own settings
  {
    /** Visiting r ends the inspection with an error. */
    ghost predicate Throws(r: Ref) {
      lookup(r).SeveralFiles? || (lookup(r).OneFile? && !readable(lookup(r).file))
    }

    ghost function SettingRefs(f: File): set<Ref> {
      set q | q in settings(f)
    }

    /** The references that visiting r makes necessary. */
    ghost function Next(r: Ref): set<Ref> {
      (if workbook(r).Some? then set q | q in workbook(r).value else {})
      + (if lookup(r).OneFile? && (workbook(r).Some? || section(r).Some?) then
           (if workbook(r).Some? then {} else set q | q in section(r).value) + SettingRefs(lookup(r).file)
         else {})
    }

    /** The definition of r that counts: a document-local one comes before that in the view's file. */
    ghost predicate Defines(r: Ref, refs: seq<Ref>) {
      workbook(r) == Some(refs) || (workbook(r).None? && lookup(r).OneFile? && section(r) == Some(refs))
    }

    /** What is necessary, one reference at a time: what the definition that counts refers to and, where there is one,
        what the settings of the view's file refer to. */
    lemma NextExactly(r: Ref, q: Ref)
      ensures q in Next(r) <==>
                exists refs :: Defines(r, refs) && (q in refs || exists f :: lookup(r) == OneFile(f) && q in settings(f))
    {
      if workbook(r).Some? {
        assert Defines(r, workbook(r).value);
      } else if section(r).Some? && lookup(r).OneFile? {
        assert Defines(r, section(r).value);
      }
    }

    ghost predicate Closed(refs: iset<Ref>) {
      forall r, q :: r in refs && q in Next(r) ==> q in refs
    }

    /** Every closed set that holds the seeds holds `refs`. */
    ghost predicate Forced(seeds: set<Ref>, refs: set<Ref>) {
      forall other: iset<Ref>, r :: Closed(other) && (iset q | q in seeds) <= other && r in refs ==> r in other
    }

    /** `refs` is the least set that contains the seeds and is closed under references. */
    ghost predicate IsClosure(seeds: set<Ref>, refs: set<Ref>) {
      && seeds <= refs
      && Closed(iset r | r in refs)
      && Forced(seeds, refs)
    }

    /** What the inspection keeps true: `known` are the references visited or still on the list. */
    ghost predicate Covers(seeds: set<Ref>, seen: set<Ref>, checked: set<File>, known: set<Ref>) {
      && seeds <= known && seen <= known
      && (forall r :: r in seen ==> Next(r) <= known)
      && (forall f :: f in checked ==> SettingRefs(f) <= known)
      && (forall r :: r in seen ==> !Throws(r))
      && Forced(seeds, known)
    }

    /** Some closed set of at most 5,000 references holds all the seeds and nothing that throws. */
    ghost predicate Inspectable(seeds: set<Ref>) {
      exists refs: set<Ref> ::
        seeds <= refs && Closed(iset r | r in refs) && |refs| <= 5000 && forall r :: r in refs ==> !Throws(r)
    }

    /** Every closed set that holds the seeds has more than 5,000 references. */
    ghost predicate Exceeds(seeds: set<Ref>) {
      forall refs: set<Ref> :: seeds <= refs && Closed(iset r | r in refs) ==> |refs| > 5000
    }

    /** A reference beyond LIMIT visited ones is in every closed set, which is therefore too large. */
    lemma OneTooMany(seeds: set<Ref>, seen: set<Ref>, checked: set<File>, known: set<Ref>, reference: Ref)
      requires Covers(seeds, seen, checked, known) && |seen| >= LIMIT
      requires reference in known && reference !in seen
      ensures Exceeds(seeds) && !Inspectable(seeds)
    {
      forall refs: set<Ref> | seeds <= refs && Closed(iset r | r in refs)
        ensures |refs| > 5000
      {
        var other := iset r | r in refs;
        assert (iset q | q in seeds) <= other;
        assert forall r :: r in known ==> r in other;
        assert seen + {reference} <= refs;
        assert refs == (seen + {reference}) + (refs - seen - {reference});
      }
    }

    lemma CannotInspect(seeds: set<Ref>, seen: set<Ref>, checked: set<File>, known: set<Ref>, reference: Ref)
      requires Covers(seeds, seen, checked, known) && reference in known && Throws(reference)
      ensures Forced(seeds, {reference}) && !Inspectable(seeds)
    {}

    /** Listing more references from outside, and ticking off a file, keeps the cover. */
    lemma MoreSeedsKeepCover(seeds: set<Ref>, seen: set<Ref>, checked: set<File>, known: set<Ref>, more: set<Ref>,
                             checked': set<File>)
      requires Covers(seeds, seen, checked, known)
      requires forall f :: f in checked' ==> f in checked || SettingRefs(f) <= more
      ensures Covers(seeds + more, seen, checked', known + more)
    {}

    /** With nothing left on the list, what has been visited is the least closed set. */
    lemma CoverIsClosure(seeds: set<Ref>, seen: set<Ref>, checked: set<File>)
      requires Covers(seeds, seen, checked, seen) && |seen| <= LIMIT
      ensures IsClosure(seeds, seen) && Inspectable(seeds)
    {}

    /** Setting references are listed only the first time their file is reached. */
    ghost function AlreadyListed(reference: Ref, checked: set<File>): set<Ref> {
      if lookup(reference).OneFile? && lookup(reference).file in checked then SettingRefs(lookup(reference).file) else {}
    }

    /** Visiting one reference that does not throw keeps the cover. */
    lemma VisitKeepsCover(seeds: set<Ref>, seen: set<Ref>, checked: set<File>, known: set<Ref>, reference: Ref,
                          checked': set<File>, known': set<Ref>)
      requires Covers(seeds, seen, checked, known) && reference in known && !Throws(reference)
      requires checked <= checked' && forall f :: f in checked' - checked ==> SettingRefs(f) <= known'
      requires known <= known' <= known + Next(reference)
      requires Next(reference) - AlreadyListed(reference, checked) <= known'
      ensures Covers(seeds, seen + {reference}, checked', known')
    {}
  }

  /** Two inspections of the same seeds end with the same references, whatever order they were listed in. */
  lemma ClosureIsUnique(catalog: Catalog, seeds: set<Ref>, a: set<Ref>, b: set<Ref>)
    requires catalog.IsClosure(seeds, a) && catalog.IsClosure(seeds, b)
    ensures a == b
  {}

  lemma ForcedNext(catalog: Catalog, seeds: set<Ref>, r: Ref, q: Ref)
    requires catalog.Forced(seeds, {r}) && q in catalog.Next(r)
    ensures catalog.Forced(seeds, {q})
  {}

  lemma ForcedSeed(catalog: Catalog, seeds: set<Ref>, r: Ref)
    requires r in seeds
    ensures catalog.Forced(seeds, {r})
  {}

  /** The forced part of a closed set is itself closed and holds the seeds. */
  lemma ForcedPart(catalog: Catalog, seeds: set<Ref>, refs: set<Ref>)
    requires seeds <= refs && catalog.Closed(iset r | r in refs)
    ensures var forced := set r | r in refs && catalog.Forced(seeds, {r});
            seeds <= forced && catalog.Closed(iset r | r in forced)
  {
    hide Catalog.Forced, Catalog.Next;
    var forced := set r | r in refs && catalog.Forced(seeds, {r});
    forall r, q | r in forced && q in catalog.Next(r)
      ensures q in forced
    {
      ForcedNext(catalog, seeds, r, q);
      assert r in (iset t | t in refs);
    }
    forall r | r in seeds
      ensures r in forced
    {
      ForcedSeed(catalog, seeds, r);
    }
  }

  /** If nothing that the seeds lead to throws, the limit fires exactly when the closure is too large. */
  lemma LimitFiresExactly(catalog: Catalog, seeds: set<Ref>)
    requires forall r :: catalog.Forced(seeds, {r}) ==> !catalog.Throws(r)
    ensures catalog.Exceeds(seeds) <==> !catalog.Inspectable(seeds)
  {
    hide Catalog.Forced, Catalog.Next, Catalog.Closed;
    if !catalog.Exceeds(seeds) {
      var refs: set<Ref> :| seeds <= refs && catalog.Closed(iset r | r in refs) && |refs| <= LIMIT;
      var forced := set r | r in refs && catalog.Forced(seeds, {r});
      assert refs == forced + (refs - forced);
      ForcedPart(catalog, seeds, refs);
    }
  }

  datatype Outcome = Done | LimitExceeded | Unreadable(reference: Ref)

  function NotIn(refs: seq<Ref>, seen: set<Ref>): (r: seq<Ref>)
    ensures forall q :: q in r <==> q in refs && q !in seen
  {
    if refs == [] then [] else (if refs[0] in seen then [] else [refs[0]]) + NotIn(refs[1..], seen)
  }

  class Worklist {
    const catalog: Catalog
    var pending: seq<Ref>
    var seen: set<Ref>
    var checkedViewSettings: set<File>
    /** Everything put on the list other than by visiting a reference. */
    ghost var seeds: set<Ref>

    ghost function Known(): set<Ref>
      reads this
    {
      seen + set r | r in pending
    }

    ghost predicate Valid()
      reads this
    {
      |seen| <= LIMIT && catalog.Covers(seeds, seen, checkedViewSettings, Known())
    }

    constructor (catalog: Catalog)
      ensures this.catalog == catalog && seeds == {} && seen == {} && Valid()
    {
      this.catalog := catalog;
      pending, seen, checkedViewSettings, seeds := [], {}, {}, {};
    }

    /** Puts references on the list, as the selected joins do. */
    method Push(refs: seq<Ref>)
      requires Valid()
      modifies this
      ensures Valid()
      ensures seeds == old(seeds) + set r | r in refs
      ensures seen == old(seen)
    {
      hide Catalog.Covers;
      catalog.MoreSeedsKeepCover(seeds, seen, checkedViewSettings, Known(), (set r | r in refs), checkedViewSettings);
      pending := pending + NotIn(refs, seen);
      seeds := seeds + set r | r in refs;
      assert Known() == old(Known()) + set r | r in refs;
    }

    /** Checks the settings of a required view file once; the references in them become seeds. */
    method InspectViewSettings(file: File)
      requires Valid()
      modifies this
      ensures Valid()
      ensures seeds == old(seeds) + catalog.SettingRefs(file)
      ensures seen == old(seen)
    {
      catalog.MoreSeedsKeepCover(seeds, seen, checkedViewSettings, Known(), catalog.SettingRefs(file), checkedViewSettings + {file});
      assert file in checkedViewSettings ==> catalog.SettingRefs(file) <= Known();
      hide Catalog.Covers;
      if file !in checkedViewSettings {
        checkedViewSettings := checkedViewSettings + {file};
        pending := pending + NotIn(catalog.settings(file), seen);
      }
      assert checkedViewSettings == old(checkedViewSettings) + {file};
      seeds := seeds + catalog.SettingRefs(file);
      assert Known() == old(Known()) + catalog.SettingRefs(file);
    }

    /** Looks one reference up and lists what its definition and its view's settings refer to. */
    method Expand(reference: Ref) returns (readable: bool)
      modifies `pending, `checkedViewSettings
      ensures readable <==> !catalog.Throws(reference)
      ensures readable ==> old(Known()) <= Known() <= old(Known()) + catalog.Next(reference)
      ensures readable ==> catalog.Next(reference) - catalog.AlreadyListed(reference, old(checkedViewSettings)) <= Known()
      ensures readable ==> old(checkedViewSettings) <= checkedViewSettings
      ensures readable ==> forall f :: f in checkedViewSettings - old(checkedViewSettings) ==> catalog.SettingRefs(f) <= Known()
    {
      var local := catalog.workbook(reference);
      var file := catalog.lookup(reference);
      if file.SeveralFiles? {
        return false;
      }
      if local.Some? {
        pending := pending + NotIn(local.value, seen);
      }
      if file.NoFile? {
        return true;
      }
      if !catalog.readable(file.file) {
        return false;
      }
      var section := catalog.section(reference);
      if section.None? && local.None? {
        return true;
      }
      pending := pending + NotIn(if local.Some? then local.value else section.value, seen);
      if file.file !in checkedViewSettings {
        checkedViewSettings := checkedViewSettings + {file.file};
        pending := pending + NotIn(catalog.settings(file.file), seen);
      }
      return true;
    }

    /** Visits everything on the list. The order of the list decides nothing: the inspection is done
        just when some closed set within the limit holds the seeds and nothing that throws, and then
        `seen` is the least closed set. */
    method VisitFields() returns (outcome: Outcome)
      requires Valid()
      modifies `pending, `seen, `checkedViewSettings
      ensures outcome.Done? ==> Valid() && pending == [] && catalog.IsClosure(seeds, seen)
      ensures outcome.Done? <==> catalog.Inspectable(seeds)
      ensures outcome.LimitExceeded? ==> catalog.Exceeds(seeds)
      ensures outcome.Unreadable? ==> catalog.Throws(outcome.reference) && catalog.Forced(seeds, {outcome.reference})
    {
      hide Catalog.Covers, Catalog.Forced, Catalog.Throws, Catalog.Next, Catalog.SettingRefs, Catalog.AlreadyListed,
           Catalog.Inspectable, Catalog.Exceeds, Catalog.IsClosure;
      while pending != []
        invariant Valid()
        decreases LIMIT - |seen|, |pending|
      {
        ghost var known, wasSeen, wasChecked := Known(), seen, checkedViewSettings;
        var reference := pending[0];
        assert pending == [reference] + pending[1..];
        pending := pending[1..];
        if reference in seen {
          assert Known() == known;
          continue;
        }
        if |seen| >= LIMIT {
          catalog.OneTooMany(seeds, seen, checkedViewSettings, known, reference);
          return LimitExceeded;
        }
        seen := seen + {reference};
        assert Known() == known;
        var readable := Expand(reference);
        if !readable {
          catalog.CannotInspect(seeds, wasSeen, wasChecked, known, reference);
          return Unreadable(reference);
        }
        catalog.VisitKeepsCover(seeds, wasSeen, wasChecked, known, reference, checkedViewSettings, Known());
      }
      assert Known() == seen;
      catalog.CoverIsClosure(seeds, seen, checkedViewSettings);
      return Done;
    }
  }
}
