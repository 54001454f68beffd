/** Merging the results of a local and an external classifier, and turning the merged result into the
    violation that is reported. The merge walks a map twice, in orders that it does not control. */
module Guardrail {

  datatype Category = Category(name: string, detected: bool, confidence: real, threshold: real)

  datatype Classification = Classification(violated: bool, categories: seq<Category>, provider: string)

  /** The configured merge logic; any other text is Unknown. */
  datatype Policy = AnyViolation | AllViolation | Weighted | Unknown

  const ZERO := Category("", false, 0.0, 0.0)

  // ---------------------------------------------------------------------------
  // Grouping by name
  // ---------------------------------------------------------------------------

  /** The categories under a name, in order. */
  function Named(cats: seq<Category>, name: string): (r: seq<Category>)
    ensures forall d :: d in r <==> d in cats && d.name == name
  {
    if cats == [] then []
    else
      var init, last := cats[..|cats| - 1], cats[|cats| - 1];
      assert cats == init + [last];
      if last.name == name then Named(init, name) + [last] else Named(init, name)
  }

  /** All that both classifiers said under a name, the local one first. */
  function Said(local: Classification, ext: Classification, name: string): (r: seq<Category>)
    ensures forall d :: d in r <==> (d in local.categories || d in ext.categories) && d.name == name
  {
    Named(local.categories, name) + Named(ext.categories, name)
  }

  ghost predicate Mentioned(cats: seq<Category>, name: string) {
    exists d :: d in cats && d.name == name
  }

  datatype Info = Info(detections: seq<Category>, hasLocal: bool, hasExt: bool)

  /** The entry of the map under one name. */
  ghost predicate GroupedAt(local: seq<Category>, ext: seq<Category>, infos: map<string, Info>, n: string) {
    if n in infos then
      && (Mentioned(local, n) || Mentioned(ext, n))
      && infos[n].detections == Named(local, n) + Named(ext, n)
      && (infos[n].hasLocal <==> Mentioned(local, n))
      && (infos[n].hasExt <==> Mentioned(ext, n))
    else
      !Mentioned(local, n) && !Mentioned(ext, n)
  }

  ghost predicate IsGrouping(local: seq<Category>, ext: seq<Category>, infos: map<string, Info>) {
    forall n :: GroupedAt(local, ext, infos, n)
  }

  function InfoOf(infos: map<string, Info>, n: string): Info {
    if n in infos then infos[n] else Info([], false, false)
  }

  lemma MentionedLast(cats: seq<Category>, last: Category, n: string)
    ensures Mentioned(cats + [last], n) <==> Mentioned(cats, n) || last.name == n
  {
    if last.name == n {
      assert last in cats + [last];
    }
    if Mentioned(cats, n) {
      var d :| d in cats && d.name == n;
      assert d in cats + [last];
    }
  }

  function WithLocal(infos: map<string, Info>, cat: Category): map<string, Info> {
    var info := InfoOf(infos, cat.name);
    infos[cat.name := info.(detections := info.detections + [cat], hasLocal := true)]
  }

  function WithExt(infos: map<string, Info>, cat: Category): map<string, Info> {
    var info := InfoOf(infos, cat.name);
    infos[cat.name := info.(detections := info.detections + [cat], hasExt := true)]
  }

  lemma GroupLocal(local: seq<Category>, infos: map<string, Info>, cat: Category)
    requires IsGrouping(local, [], infos)
    ensures IsGrouping(local + [cat], [], WithLocal(infos, cat))
  {
    forall n
      ensures GroupedAt(local + [cat], [], WithLocal(infos, cat), n)
    {
      GroupLocalAt(local, infos, cat, n);
    }
  }

  lemma GroupLocalAt(local: seq<Category>, infos: map<string, Info>, cat: Category, n: string)
    requires GroupedAt(local, [], infos, n)
    ensures GroupedAt(local + [cat], [], WithLocal(infos, cat), n)
  {
    hide Mentioned;
    MentionedLast(local, cat, n);
    NamedLast(local, cat, n);
    NamedNone(local, n);
  }

  lemma GroupExt(local: seq<Category>, ext: seq<Category>, infos: map<string, Info>, cat: Category)
    requires IsGrouping(local, ext, infos)
    ensures IsGrouping(local, ext + [cat], WithExt(infos, cat))
  {
    forall n
      ensures GroupedAt(local, ext + [cat], WithExt(infos, cat), n)
    {
      GroupExtAt(local, ext, infos, cat, n);
    }
  }

  lemma GroupExtAt(local: seq<Category>, ext: seq<Category>, infos: map<string, Info>, cat: Category, n: string)
    requires GroupedAt(local, ext, infos, n)
    ensures GroupedAt(local, ext + [cat], WithExt(infos, cat), n)
  {
    hide Mentioned, Named;
    MentionedLast(ext, cat, n);
    NamedLast(ext, cat, n);
    NamedNone(local, n);
    NamedNone(ext, n);
  }

  lemma NamedLast(cats: seq<Category>, last: Category, n: string)
    ensures Named(cats + [last], n) == Named(cats, n) + (if last.name == n then [last] else [])
  {
    assert (cats + [last])[..|cats|] == cats;
  }

  lemma NamedNone(cats: seq<Category>, n: string)
    ensures !Mentioned(cats, n) ==> Named(cats, n) == []
  {
    NoMembers(Named(cats, n));
  }

  lemma NoMembers(cats: seq<Category>)
    ensures cats == [] || exists d :: d in cats
  {
    if cats != [] {
      assert cats[0] in cats;
    }
  }

  /** The first two loops of the merge. */
  method Group(local: seq<Category>, ext: seq<Category>) returns (infos: map<string, Info>)
    ensures IsGrouping(local, ext, infos)
  {
    infos := map[];
    assert IsGrouping([], [], infos);
    hide IsGrouping;
    for i := 0 to |local|
      invariant IsGrouping(local[..i], [], infos)
    {
      GroupLocal(local[..i], infos, local[i]);
      assert local[..i + 1] == local[..i] + [local[i]];
      infos := WithLocal(infos, local[i]);
    }
    assert local[..|local|] == local;
    for i := 0 to |ext|
      invariant IsGrouping(local, ext[..i], infos)
    {
      GroupExt(local, ext[..i], infos, ext[i]);
      assert ext[..i + 1] == ext[..i] + [ext[i]];
      infos := WithExt(infos, ext[i]);
    }
    assert ext[..|ext|] == ext;
  }

  // ---------------------------------------------------------------------------
  // Deciding one category
  // ---------------------------------------------------------------------------

  predicate IsDetected(d: Category) {
    d.detected
  }

  predicate Anything(d: Category) {
    true
  }

  /** c is the first of the most confident among those of ds that satisfy p. */
  ghost predicate IsFirstMax(ds: seq<Category>, p: Category -> bool, c: Category) {
    exists i :: IsFirstMaxAt(ds, p, i) && ds[i] == c
  }

  ghost predicate IsFirstMaxAt(ds: seq<Category>, p: Category -> bool, i: int) {
    && 0 <= i < |ds| && p(ds[i])
    && (forall j :: 0 <= j < i && p(ds[j]) ==> ds[j].confidence < ds[i].confidence)
    && (forall j :: i < j < |ds| && p(ds[j]) ==> ds[j].confidence <= ds[i].confidence)
  }

  lemma FirstMaxUnique(ds: seq<Category>, p: Category -> bool, c: Category, c': Category)
    requires IsFirstMax(ds, p, c) && IsFirstMax(ds, p, c')
    ensures c == c'
  {
    var i :| IsFirstMaxAt(ds, p, i) && ds[i] == c;
    var j :| IsFirstMaxAt(ds, p, j) && ds[j] == c';
    assert i == j;
  }

  ghost predicate IsLastDetected(ds: seq<Category>, c: Category) {
    exists i :: 0 <= i < |ds| && ds[i].detected && ds[i] == c && forall j :: i < j < |ds| ==> !ds[j].detected
  }

  ghost predicate SomeDetected(ds: seq<Category>) {
    exists d :: d in ds && d.detected
  }

  /** What each policy takes for a detection. */
  ghost predicate Detects(policy: Policy, local: Classification, ext: Classification, name: string) {
    match policy
    case AnyViolation => SomeDetected(Said(local, ext, name))
    case AllViolation =>
      && (forall d :: d in Said(local, ext, name) ==> d.detected)
      && (local.provider != "" ==> Mentioned(local.categories, name))
      && (ext.provider != "" ==> Mentioned(ext.categories, name))
    case Weighted => exists d :: d in Said(local, ext, name) && d.detected && d.confidence >= 0.0
    case Unknown => false
  }

  /** The category shown for a detection. Under an empty name, the comparison of confidences is short-cut
      and the last detection wins, except by weight. */
  ghost predicate IsPick(policy: Policy, name: string, ds: seq<Category>, c: Category) {
    if name == "" && !policy.Weighted? then IsLastDetected(ds, c) else IsFirstMax(ds, IsDetected, c)
  }

  /** The scan for the best detection that all policies but the weighted one share. */
  method BestDetected(name: string, ds: seq<Category>) returns (best: Category)
    requires forall d :: d in ds ==> d.name == name
    ensures SomeDetected(ds) ==> IsPick(AnyViolation, name, ds, best)
  {
    best := ZERO;
    ghost var at := -1;
    for i := 0 to |ds|
      invariant at < 0 ==> best == ZERO && forall j :: 0 <= j < i ==> !ds[j].detected
      invariant at >= 0 ==> at < i && ds[at] == best && best.detected
      invariant at >= 0 && name == "" ==> forall j :: at < j < i ==> !ds[j].detected
      invariant at >= 0 && name != "" ==> IsFirstMaxAt(ds[..i], IsDetected, at)
    {
      assert ds[i] in ds;
      if ds[i].detected {
        if best.name == "" || ds[i].confidence > best.confidence {
          best, at := ds[i], i;
        }
      }
    }
    assert ds[..|ds|] == ds;
  }

  /** The scan of the weighted policy: it starts below every confidence it cares for. */
  method BestWeighted(ds: seq<Category>) returns (detected: bool, best: Category)
    ensures detected <==> exists d :: d in ds && d.detected && d.confidence >= 0.0
    ensures detected ==> IsFirstMax(ds, IsDetected, best)
  {
    var maxConfidence := -1.0;
    best := ZERO;
    ghost var at := -1;
    for i := 0 to |ds|
      invariant maxConfidence >= -1.0
      invariant forall j :: 0 <= j < i && ds[j].detected ==> ds[j].confidence <= maxConfidence
      invariant at < 0 ==> maxConfidence == -1.0
      invariant at >= 0 ==> at < i && ds[at] == best && best.detected && best.confidence == maxConfidence
      invariant at >= 0 ==> IsFirstMaxAt(ds[..i], IsDetected, at)
    {
      if ds[i].detected && ds[i].confidence > maxConfidence {
        maxConfidence, best, at := ds[i].confidence, ds[i], i;
      }
    }
    assert ds[..|ds|] == ds;
    detected := maxConfidence >= 0.0;
  }

  method AllDetected(ds: seq<Category>) returns (r: bool)
    ensures r <==> forall d :: d in ds ==> d.detected
  {
    r := true;
    for i := 0 to |ds|
      invariant r <==> forall j :: 0 <= j < i ==> ds[j].detected
    {
      if !ds[i].detected {
        r := false;
      }
    }
    if !r {
      var j :| 0 <= j < |ds| && !ds[j].detected;
      assert ds[j] in ds;
    }
  }

  /** One turn of the third loop. */
  method Decide(policy: Policy, local: Classification, ext: Classification, name: string, info: Info)
    returns (detected: bool, best: Category)
    requires info.detections == Said(local, ext, name) != []
    requires info.hasLocal <==> Mentioned(local.categories, name)
    requires info.hasExt <==> Mentioned(ext.categories, name)
    ensures detected <==> Detects(policy, local, ext, name)
    ensures detected ==> IsPick(policy, name, Said(local, ext, name), best)
  {
    hide IsLastDetected, IsFirstMax, Mentioned, Said;
    var ds := info.detections;
    if policy.Weighted? {
      detected, best := BestWeighted(ds);
      return;
    }
    best := BestDetected(name, ds);
    match policy {
      case AnyViolation =>
        detected := false;
        for i := 0 to |ds|
          invariant detected <==> exists j :: 0 <= j < i && ds[j].detected
        {
          detected := detected || ds[i].detected;
        }
      case AllViolation =>
        var all := AllDetected(ds);
        detected := all && (local.provider == "" || info.hasLocal) && (ext.provider == "" || info.hasExt);
        assert ds[0] in ds;
      case Unknown =>
        detected := false;
    }
  }

  /** The scan of the last loop: the most confident of all, detected or not. */
  method MostConfident(ds: seq<Category>) returns (best: Category)
    requires ds != []
    ensures IsFirstMax(ds, Anything, best)
  {
    best := ds[0];
    ghost var at := 0;
    for i := 0 to |ds|
      invariant 0 <= at < |ds| && ds[at] == best && (at < i || at == 0 == i)
      invariant i > 0 ==> IsFirstMaxAt(ds[..i], Anything, at)
    {
      if ds[i].confidence > best.confidence {
        best, at := ds[i], i;
      }
    }
    assert ds[..|ds|] == ds;
  }

  // ---------------------------------------------------------------------------
  // The merge
  // ---------------------------------------------------------------------------

  /** The one entry that the merged result holds under its name. */
  ghost predicate IsEntry(policy: Policy, local: Classification, ext: Classification, c: Category) {
    if Detects(policy, local, ext, c.name) then IsPick(policy, c.name, Said(local, ext, c.name), c)
    else IsFirstMax(Said(local, ext, c.name), Anything, c)
  }

  ghost predicate DistinctNames(cats: seq<Category>) {
    forall i, j :: 0 <= i < j < |cats| ==> cats[i].name != cats[j].name
  }

  ghost predicate Violates(policy: Policy, local: Classification, ext: Classification) {
    exists n :: (Mentioned(local.categories, n) || Mentioned(ext.categories, n)) && Detects(policy, local, ext, n)
  }

  /** What the policy detects comes before everything else. */
  ghost predicate DetectedFirst(policy: Policy, local: Classification, ext: Classification, cats: seq<Category>) {
    forall i, j :: 0 <= i < j < |cats| && Detects(policy, local, ext, cats[j].name) ==>
      Detects(policy, local, ext, cats[i].name)
  }

  /** What a merge must yield, however the map is walked: exactly one entry for each name either classifier
      mentions, the detected ones first, and a violation exactly when the policy detects one under some
      name. */
  ghost predicate IsMerge(policy: Policy, local: Classification, ext: Classification, m: Classification) {
    && DistinctNames(m.categories)
    && (forall n :: Mentioned(m.categories, n) <==> Mentioned(local.categories, n) || Mentioned(ext.categories, n))
    && (forall c :: c in m.categories ==> IsEntry(policy, local, ext, c))
    && DetectedFirst(policy, local, ext, m.categories)
    && (m.violated <==> Violates(policy, local, ext))
  }

  /** Entries gathered so far: one for each finished name. */
  ghost predicate Gathered(policy: Policy, local: Classification, ext: Classification, done: set<string>,
                           cats: seq<Category>) {
    && DistinctNames(cats)
    && (forall n :: Mentioned(cats, n) <==> n in done)
    && forall c :: c in cats ==> IsEntry(policy, local, ext, c)
  }

  lemma GatherOne(policy: Policy, local: Classification, ext: Classification, done: set<string>,
                  cats: seq<Category>, c: Category)
    requires Gathered(policy, local, ext, done, cats) && IsEntry(policy, local, ext, c) && c.name !in done
    ensures Gathered(policy, local, ext, done + {c.name}, cats + [c])
  {
    hide IsEntry;
    forall n
      ensures Mentioned(cats + [c], n) <==> n in done + {c.name}
    {
      MentionedLast(cats, c, n);
    }
    forall i | 0 <= i < |cats|
      ensures cats[i].name != c.name
    {
      assert Mentioned(cats, cats[i].name);
    }
  }

  /** A name that either classifier mentions has something said under it. */
  lemma GroupNonEmpty(local: Classification, ext: Classification, n: string)
    ensures Mentioned(local.categories, n) || Mentioned(ext.categories, n) ==> Said(local, ext, n) != []
  {
    if Mentioned(local.categories, n) || Mentioned(ext.categories, n) {
      var d :| (d in local.categories || d in ext.categories) && d.name == n;
      assert d in Said(local, ext, n);
    }
  }

  lemma PickIsSaid(policy: Policy, local: Classification, ext: Classification, n: string, c: Category)
    requires IsPick(policy, n, Said(local, ext, n), c) || IsFirstMax(Said(local, ext, n), Anything, c)
    ensures c in Said(local, ext, n) && c.name == n
  {
  }

  /** The third loop: the map is walked in any order. */
  method GatherDetected(policy: Policy, local: Classification, ext: Classification, infos: map<string, Info>)
    returns (violated: bool, cats: seq<Category>, ghost done: set<string>)
    requires IsGrouping(local.categories, ext.categories, infos)
    ensures Gathered(policy, local, ext, done, cats)
    ensures forall n :: n in done <==> n in infos && Detects(policy, local, ext, n)
    ensures violated <==> done != {}
    ensures forall c :: c in cats ==> Detects(policy, local, ext, c.name)
  {
    hide IsEntry, IsPick, Detects, IsFirstMax, Mentioned, Gathered;
    violated, cats, done := false, [], {};
    NothingGathered(policy, local, ext);
    var remaining := infos.Keys;
    while remaining != {}
      invariant remaining <= infos.Keys
      invariant Gathered(policy, local, ext, done, cats)
      invariant forall n :: n in done <==> n in infos && n !in remaining && Detects(policy, local, ext, n)
      invariant violated <==> done != {}
      invariant forall c :: c in cats ==> Detects(policy, local, ext, c.name)
    {
      var n :| n in remaining;
      remaining := remaining - {n};
      assert GroupedAt(local.categories, ext.categories, infos, n);
      GroupNonEmpty(local, ext, n);
      var detected, best := Decide(policy, local, ext, n, infos[n]);
      if detected {
        PickIsEntry(policy, local, ext, n, best);
        GatherOne(policy, local, ext, done, cats, best);
        violated, cats, done := true, cats + [best], done + {n};
      }
    }
  }

  lemma NothingGathered(policy: Policy, local: Classification, ext: Classification)
    ensures Gathered(policy, local, ext, {}, [])
  {
  }

  lemma PickIsEntry(policy: Policy, local: Classification, ext: Classification, n: string, c: Category)
    requires if Detects(policy, local, ext, n) then IsPick(policy, n, Said(local, ext, n), c)
             else IsFirstMax(Said(local, ext, n), Anything, c)
    ensures c.name == n && IsEntry(policy, local, ext, c)
  {
    PickIsSaid(policy, local, ext, n, c);
  }

  lemma GroupedNames(local: seq<Category>, ext: seq<Category>, infos: map<string, Info>)
    requires IsGrouping(local, ext, infos)
    ensures forall n :: n in infos <==> Mentioned(local, n) || Mentioned(ext, n)
  {
    forall n
      ensures n in infos <==> Mentioned(local, n) || Mentioned(ext, n)
    {
      assert GroupedAt(local, ext, infos, n);
    }
  }

  /** mergeResults. */
  method MergeResults(policy: Policy, local: Classification, ext: Classification) returns (m: Classification)
    ensures IsMerge(policy, local, ext, m) && m.provider == ""
  {
    hide IsEntry, IsPick, Detects, IsFirstMax, Mentioned, DistinctNames;
    var infos := Group(local.categories, ext.categories);
    var violated, cats, done := GatherDetected(policy, local, ext, infos);
    GroupedNames(local.categories, ext.categories, infos);
    assert violated <==> Violates(policy, local, ext);
    var remaining := infos.Keys;
    while remaining != {}
      invariant remaining <= infos.Keys
      invariant Gathered(policy, local, ext, done, cats)
      invariant forall n :: n in infos && n !in remaining ==> n in done
      invariant done <= infos.Keys
      invariant forall n :: n in infos && Detects(policy, local, ext, n) ==> n in done
      invariant DetectedFirst(policy, local, ext, cats)
    {
      var n :| n in remaining;
      remaining := remaining - {n};
      assert GroupedAt(local.categories, ext.categories, infos, n);
      GroupNonEmpty(local, ext, n);
      var found := Contains(cats, n);
      if !found {
        var best := MostConfident(infos[n].detections);
        PickIsEntry(policy, local, ext, n, best);
        GatherOne(policy, local, ext, done, cats, best);
        cats, done := cats + [best], done + {n};
      }
    }
    m := Classification(violated, cats, "");
  }

  method Contains(cats: seq<Category>, name: string) returns (found: bool)
    ensures found <==> Mentioned(cats, name)
  {
    for i := 0 to |cats|
      invariant forall j :: 0 <= j < i ==> cats[j].name != name
    {
      if cats[i].name == name {
        assert cats[i] in cats;
        return true;
      }
    }
    found := false;
  }

  // ---------------------------------------------------------------------------
  // Order of the walks
  // ---------------------------------------------------------------------------

  lemma EntryUnique(policy: Policy, local: Classification, ext: Classification, c: Category, c': Category)
    requires IsEntry(policy, local, ext, c) && IsEntry(policy, local, ext, c') && c.name == c'.name
    ensures c == c'
  {
    hide Said, Detects, IsFirstMax;
    var ds := Said(local, ext, c.name);
    if IsFirstMax(ds, Anything, c) && IsFirstMax(ds, Anything, c') {
      FirstMaxUnique(ds, Anything, c, c');
    }
    if IsFirstMax(ds, IsDetected, c) && IsFirstMax(ds, IsDetected, c') {
      FirstMaxUnique(ds, IsDetected, c, c');
    }
  }

  lemma MergeContains(policy: Policy, local: Classification, ext: Classification, m: Classification,
                      m': Classification, c: Category)
    requires IsMerge(policy, local, ext, m) && IsMerge(policy, local, ext, m') && c in m.categories
    ensures c in m'.categories
  {
    hide IsEntry, Violates;
    assert Mentioned(m.categories, c.name);
    assert Mentioned(m'.categories, c.name);
    var c' :| c' in m'.categories && c'.name == c.name;
    EntryUnique(policy, local, ext, c, c');
  }

  lemma {:induction false} DistinctCount(cats: seq<Category>, c: Category)
    requires DistinctNames(cats)
    ensures multiset(cats)[c] == if c in cats then 1 else 0
  {
    if cats != [] {
      var init, last := cats[..|cats| - 1], cats[|cats| - 1];
      assert cats == init + [last];
      DistinctCount(init, c);
    }
  }

  /** The order in which the map is walked permutes the categories and changes nothing else. */
  lemma OrderOnlyPermutes(policy: Policy, local: Classification, ext: Classification, m: Classification,
                          m': Classification)
    requires IsMerge(policy, local, ext, m) && IsMerge(policy, local, ext, m')
    ensures m.violated == m'.violated
    ensures multiset(m.categories) == multiset(m'.categories)
  {
    forall c: Category
      ensures multiset(m.categories)[c] == multiset(m'.categories)[c]
    {
      hide IsMerge;
      DistinctCount(m.categories, c);
      DistinctCount(m'.categories, c);
      if c in m.categories {
        MergeContains(policy, local, ext, m, m', c);
      }
      if c in m'.categories {
        MergeContains(policy, local, ext, m', m, c);
      }
    }
  }

  // ---------------------------------------------------------------------------
  // The policies compared
  // ---------------------------------------------------------------------------

  ghost predicate Input(local: Classification, ext: Classification, d: Category) {
    d in local.categories || d in ext.categories
  }

  lemma InputIsSaid(local: Classification, ext: Classification, d: Category)
    requires Input(local, ext, d)
    ensures d in Said(local, ext, d.name)
    ensures Mentioned(local.categories, d.name) || Mentioned(ext.categories, d.name)
  {
  }

  /** If all must agree to a violation, any one of them finds it. */
  lemma AllImpliesAny(local: Classification, ext: Classification)
    requires Violates(AllViolation, local, ext)
    ensures Violates(AnyViolation, local, ext)
  {
    var n :| (Mentioned(local.categories, n) || Mentioned(ext.categories, n)) && Detects(AllViolation, local, ext, n);
    GroupNonEmpty(local, ext, n);
    assert Said(local, ext, n)[0] in Said(local, ext, n);
    assert Detects(AnyViolation, local, ext, n);
  }

  /** Both classifiers detected the category of d, as far as they ran. */
  ghost predicate Unanimous(local: Classification, ext: Classification, d: Category) {
    && (forall e :: Input(local, ext, e) && e.name == d.name ==> e.detected)
    && (local.provider != "" ==> exists e :: e in local.categories && e.name == d.name)
    && (ext.provider != "" ==> exists e :: e in ext.categories && e.name == d.name)
  }

  /** Under any violation, the result is violated exactly when some category was detected; by weight,
      exactly when one was detected with a confidence that is not negative; when all must agree, exactly
      when some category was detected by every classifier that ran. */
  lemma ViolationsByInput(local: Classification, ext: Classification)
    ensures Violates(AnyViolation, local, ext) <==> exists d :: Input(local, ext, d) && d.detected
    ensures Violates(Weighted, local, ext) <==> exists d :: Input(local, ext, d) && d.detected && d.confidence >= 0.0
    ensures Violates(AllViolation, local, ext) <==> exists d :: Input(local, ext, d) && Unanimous(local, ext, d)
    ensures !Violates(Unknown, local, ext)
  {
    UnanimousIff(local, ext);
    hide Said, Mentioned;
    forall d | Input(local, ext, d) && d.detected
      ensures Violates(AnyViolation, local, ext)
      ensures d.confidence >= 0.0 ==> Violates(Weighted, local, ext)
    {
      InputIsSaid(local, ext, d);
      assert Detects(AnyViolation, local, ext, d.name);
      assert d.confidence >= 0.0 ==> Detects(Weighted, local, ext, d.name);
    }
  }

  lemma UnanimousIff(local: Classification, ext: Classification)
    ensures Violates(AllViolation, local, ext) <==> exists d :: Input(local, ext, d) && Unanimous(local, ext, d)
  {
    if Violates(AllViolation, local, ext) {
      var n :| (Mentioned(local.categories, n) || Mentioned(ext.categories, n))
               && Detects(AllViolation, local, ext, n);
      var d :| Input(local, ext, d) && d.name == n;
      assert Unanimous(local, ext, d);
    }
    if d :| Input(local, ext, d) && Unanimous(local, ext, d) {
      InputIsSaid(local, ext, d);
      SaidIsInput(local, ext, d.name);
      assert Detects(AllViolation, local, ext, d.name);
    }
  }

  /** Weighted and any violation agree on whether there is a violation exactly when nothing was detected
      or something was detected with a confidence that is not negative. */
  lemma WeightedAgreesIff(local: Classification, ext: Classification)
    ensures (Violates(Weighted, local, ext) <==> Violates(AnyViolation, local, ext)) <==>
              || (forall d :: Input(local, ext, d) ==> !d.detected)
              || (exists d :: Input(local, ext, d) && d.detected && d.confidence >= 0.0)
  {
    hide Violates;
    ViolationsByInput(local, ext);
  }

  ghost predicate NamesGiven(local: Classification, ext: Classification) {
    forall d :: Input(local, ext, d) ==> d.name != ""
  }

  /** With names and no negative confidence, both policies admit exactly the same merged results. */
  lemma WeightedIsAnyViolation(local: Classification, ext: Classification, m: Classification)
    requires NamesGiven(local, ext) && forall d :: Input(local, ext, d) ==> d.confidence >= 0.0
    ensures IsMerge(Weighted, local, ext, m) <==> IsMerge(AnyViolation, local, ext, m)
  {
    forall n
      ensures Detects(Weighted, local, ext, n) <==> Detects(AnyViolation, local, ext, n)
    {
      SaidIsInput(local, ext, n);
    }
    ViolationsByInput(local, ext);
    forall c: Category
      ensures IsEntry(Weighted, local, ext, c) <==> IsEntry(AnyViolation, local, ext, c)
    {
      SameEntry(local, ext, c);
    }
    SameMerge(local, ext, m);
  }

  lemma SameMerge(local: Classification, ext: Classification, m: Classification)
    requires forall c :: IsEntry(Weighted, local, ext, c) <==> IsEntry(AnyViolation, local, ext, c)
    requires forall n :: Detects(Weighted, local, ext, n) <==> Detects(AnyViolation, local, ext, n)
    requires Violates(Weighted, local, ext) <==> Violates(AnyViolation, local, ext)
    ensures IsMerge(Weighted, local, ext, m) <==> IsMerge(AnyViolation, local, ext, m)
  {
    hide IsEntry, Detects, Violates, Mentioned, DistinctNames;
  }

  lemma SaidIsInput(local: Classification, ext: Classification, n: string)
    ensures forall d :: d in Said(local, ext, n) ==> Input(local, ext, d) && d.name == n
  {
  }

  lemma SameEntry(local: Classification, ext: Classification, c: Category)
    requires NamesGiven(local, ext)
    requires Detects(Weighted, local, ext, c.name) <==> Detects(AnyViolation, local, ext, c.name)
    ensures IsEntry(Weighted, local, ext, c) <==> IsEntry(AnyViolation, local, ext, c)
  {
    hide Detects, IsFirstMax, IsLastDetected;
    if c.name == "" {
      NothingSaidUnnamed(local, ext, c);
    }
  }

  lemma NothingSaidUnnamed(local: Classification, ext: Classification, c: Category)
    requires NamesGiven(local, ext)
    ensures var ds := Said(local, ext, "");
            !IsFirstMax(ds, IsDetected, c) && !IsFirstMax(ds, Anything, c) && !IsLastDetected(ds, c)
  {
    SaidIsInput(local, ext, "");
    NoMembers(Said(local, ext, ""));
  }

  // ---------------------------------------------------------------------------
  // The violation that is reported
  // ---------------------------------------------------------------------------

  datatype Report = Nothing | Violation(rule: string, critical: bool)

  predicate IsPositive(d: Category) {
    d.detected && d.confidence > 0.0
  }

  /** The report names the first of the most confident detections, if one is positive and has a name. */
  ghost predicate IsReport(m: Classification, r: Report) {
    match r
    case Violation(rule, critical) =>
      && m.violated && rule != ""
      && exists c :: IsFirstMax(m.categories, IsPositive, c) && c.name == rule
                     && (critical <==> c.confidence >= c.threshold)
    case Nothing =>
      !m.violated || forall c :: IsFirstMax(m.categories, IsPositive, c) ==> c.name == ""
  }

  /** classificationToViolation. */
  method ClassificationToViolation(m: Classification) returns (r: Report)
    ensures IsReport(m, r)
  {
    if !m.violated || |m.categories| == 0 {
      return Nothing;
    }
    var best := StrongestPositive(m.categories);
    if best.name == "" {
      UnnamedBest(m.categories, best);
      return Nothing;
    }
    r := Violation(best.name, best.confidence >= best.threshold);
  }

  method StrongestPositive(cats: seq<Category>) returns (best: Category)
    ensures IsFirstMax(cats, IsPositive, best) || (best == ZERO && forall c :: c in cats ==> !IsPositive(c))
  {
    best := ZERO;
    ghost var at := -1;
    for i := 0 to |cats|
      invariant at < 0 ==> best == ZERO && forall j :: 0 <= j < i ==> !IsPositive(cats[j])
      invariant at >= 0 ==> at < i && cats[at] == best && IsPositive(best) && IsFirstMaxAt(cats[..i], IsPositive, at)
    {
      if cats[i].detected && cats[i].confidence > best.confidence {
        best, at := cats[i], i;
      }
    }
    assert cats[..|cats|] == cats;
  }

  lemma UnnamedBest(cats: seq<Category>, best: Category)
    requires IsFirstMax(cats, IsPositive, best) || (best == ZERO && forall c :: c in cats ==> !IsPositive(c))
    requires best.name == ""
    ensures forall c :: IsFirstMax(cats, IsPositive, c) ==> c.name == ""
  {
    forall c | IsFirstMax(cats, IsPositive, c)
      ensures c.name == ""
    {
      if IsFirstMax(cats, IsPositive, best) {
        FirstMaxUnique(cats, IsPositive, c, best);
      }
    }
  }

  lemma {:induction false} FirstMaxExists(cats: seq<Category>, p: Category -> bool) returns (i: int)
    ensures (exists c :: c in cats && p(c)) ==> IsFirstMaxAt(cats, p, i)
  {
    i := 0;
    if cats != [] {
      var init, last := cats[..|cats| - 1], |cats| - 1;
      i := FirstMaxExists(init, p);
      if p(cats[last]) && (!IsFirstMaxAt(init, p, i) || cats[last].confidence > cats[i].confidence) {
        assert !IsFirstMaxAt(init, p, i) ==> forall j :: 0 <= j < last ==> !p(cats[j]) by {
          assert forall j :: 0 <= j < last ==> cats[j] in init;
        }
        i := last;
      }
    }
  }

  /** Whatever is detected with positive confidence is represented by an entry at least as confident. */
  lemma DetectionShown(policy: Policy, local: Classification, ext: Classification, m: Classification, d: Category)
    returns (c: Category)
    requires (policy.AnyViolation? || policy.Weighted?) && NamesGiven(local, ext)
    requires IsMerge(policy, local, ext, m) && Input(local, ext, d) && IsPositive(d)
    ensures m.violated && c in m.categories && c.name == d.name
    ensures IsPositive(c) && c.confidence >= d.confidence
  {
    InputIsSaid(local, ext, d);
    assert Detects(policy, local, ext, d.name);
    assert Mentioned(m.categories, d.name);
    c :| c in m.categories && c.name == d.name;
    var ds := Said(local, ext, d.name);
    assert IsFirstMax(ds, IsDetected, c);
    var i :| IsFirstMaxAt(ds, IsDetected, i) && ds[i] == c;
    var j :| 0 <= j < |ds| && ds[j] == d;
  }

  /** The category is shown in the merged result: it speaks for all that was said under its name. */
  ghost predicate Shown(policy: Policy, local: Classification, ext: Classification, c: Category) {
    Input(local, ext, c) && IsEntry(policy, local, ext, c)
  }

  /** What a merged result holds is determined by the classifiers' categories. */
  lemma ShownIff(policy: Policy, local: Classification, ext: Classification, m: Classification, c: Category)
    requires IsMerge(policy, local, ext, m)
    ensures c in m.categories <==> Shown(policy, local, ext, c)
  {
    hide IsEntry, Violates, DetectedFirst;
    if c in m.categories {
      EntryIsInput(policy, local, ext, m, c);
    }
    if Shown(policy, local, ext, c) {
      InputIsSaid(local, ext, c);
      assert Mentioned(m.categories, c.name);
      var c' :| c' in m.categories && c'.name == c.name;
      EntryUnique(policy, local, ext, c, c');
    }
  }

  /** From classifiers to report, under every policy: a violation is reported exactly when the policy finds
      one and some category shown was detected with positive confidence. */
  lemma ReportedIff(policy: Policy, local: Classification, ext: Classification, m: Classification, r: Report)
    requires NamesGiven(local, ext) && IsMerge(policy, local, ext, m) && IsReport(m, r)
    ensures r.Violation? <==>
              Violates(policy, local, ext) && exists d :: Shown(policy, local, ext, d) && IsPositive(d)
  {
    hide IsEntry, Violates, DetectedFirst, DistinctNames, Mentioned;
    if d :| Shown(policy, local, ext, d) && IsPositive(d) {
      ShownIff(policy, local, ext, m, d);
      var i := FirstMaxExists(m.categories, IsPositive);
      assert IsFirstMax(m.categories, IsPositive, m.categories[i]);
      ShownIff(policy, local, ext, m, m.categories[i]);
    }
    if r.Violation? {
      var c :| IsFirstMax(m.categories, IsPositive, c) && c.name == r.rule;
      ShownIff(policy, local, ext, m, c);
    }
  }

  /** Under any violation or by weight that is: exactly when some classifier detected something with positive
      confidence. */
  lemma ReportedByInput(policy: Policy, local: Classification, ext: Classification, m: Classification, r: Report)
    requires (policy.AnyViolation? || policy.Weighted?) && NamesGiven(local, ext)
    requires IsMerge(policy, local, ext, m) && IsReport(m, r)
    ensures r.Violation? <==> exists d :: Input(local, ext, d) && IsPositive(d)
  {
    ReportedIff(policy, local, ext, m, r);
    hide IsEntry, IsReport, Violates;
    if d :| Input(local, ext, d) && IsPositive(d) {
      var c := DetectionShown(policy, local, ext, m, d);
      ShownIff(policy, local, ext, m, c);
    }
  }

  /** When all must agree: exactly when some category was detected by every classifier that ran, and under
      some name, agreed on or not, the first of the most confident opinions is a positive detection. */
  lemma ReportedWhenAllAgree(local: Classification, ext: Classification, m: Classification, r: Report)
    requires NamesGiven(local, ext) && IsMerge(AllViolation, local, ext, m) && IsReport(m, r)
    ensures r.Violation? <==>
              && (exists d :: Input(local, ext, d) && Unanimous(local, ext, d))
              && (exists d :: IsPositive(d) && IsFirstMax(Said(local, ext, d.name), Anything, d))
  {
    ReportedIff(AllViolation, local, ext, m, r);
    UnanimousIff(local, ext);
    hide IsEntry, IsReport, Violates, IsMerge, IsFirstMax, Unanimous;
    forall d: Category
      ensures Shown(AllViolation, local, ext, d) <==> IsFirstMax(Said(local, ext, d.name), Anything, d)
    {
      AllShowsStrongest(local, ext, d);
    }
  }

  lemma AllShowsStrongest(local: Classification, ext: Classification, d: Category)
    requires NamesGiven(local, ext)
    ensures Shown(AllViolation, local, ext, d) <==> IsFirstMax(Said(local, ext, d.name), Anything, d)
  {
    var ds := Said(local, ext, d.name);
    if d.name == "" {
      NothingSaidUnnamed(local, ext, d);
    } else if Detects(AllViolation, local, ext, d.name) {
      AllEligible(ds, d);
    }
    if IsFirstMax(ds, Anything, d) {
      FirstMaxBounds(ds, Anything, d);
    }
  }

  /** Where everything is detected, the most confident detection is the most confident of all. */
  lemma AllEligible(ds: seq<Category>, d: Category)
    requires forall e :: e in ds ==> e.detected
    ensures IsFirstMax(ds, IsDetected, d) <==> IsFirstMax(ds, Anything, d)
  {
    forall i | 0 <= i < |ds|
      ensures IsFirstMaxAt(ds, IsDetected, i) <==> IsFirstMaxAt(ds, Anything, i)
    {
      assert forall j :: 0 <= j < |ds| ==> ds[j] in ds;
    }
  }

  lemma EntryIsInput(policy: Policy, local: Classification, ext: Classification, m: Classification, c: Category)
    requires IsMerge(policy, local, ext, m) && c in m.categories
    ensures Input(local, ext, c)
  {
    PickIsSaid(policy, local, ext, c.name, c);
  }

  /** Under every policy the report names a category that a classifier detected, and no detection shown is
      more confident. Under any violation or by weight the policy itself detected it, and no detection of
      either classifier is more confident. */
  lemma ReportIsStrongest(policy: Policy, local: Classification, ext: Classification, m: Classification, r: Report)
    returns (c: Category)
    requires NamesGiven(local, ext) && IsMerge(policy, local, ext, m) && IsReport(m, r) && r.Violation?
    ensures Shown(policy, local, ext, c) && IsPositive(c) && c.name == r.rule
    ensures forall d :: Shown(policy, local, ext, d) && d.detected ==> d.confidence <= c.confidence
    ensures r.critical <==> c.confidence >= c.threshold
    ensures policy.AnyViolation? || policy.Weighted? ==>
              && Detects(policy, local, ext, r.rule)
              && forall d :: Input(local, ext, d) && d.detected ==> d.confidence <= c.confidence
  {
    hide IsEntry;
    c :| IsFirstMax(m.categories, IsPositive, c) && c.name == r.rule && (r.critical <==> c.confidence >= c.threshold);
    FirstMaxBounds(m.categories, IsPositive, c);
    ShownIff(policy, local, ext, m, c);
    InputIsSaid(local, ext, c);
    forall d | Shown(policy, local, ext, d) && d.detected
      ensures d.confidence <= c.confidence
    {
      ShownIff(policy, local, ext, m, d);
    }
    if policy.AnyViolation? || policy.Weighted? {
      forall d | Input(local, ext, d) && d.detected
        ensures d.confidence <= c.confidence
      {
        if IsPositive(d) {
          var shown := DetectionShown(policy, local, ext, m, d);
        }
      }
    }
  }

  /** When all must agree, the report may name a category on which they did not: it shares the result with
      one on which they did. */
  lemma UnagreedMayBeReported() returns (local: Classification, ext: Classification, m: Classification, r: Report)
    ensures local.provider != "" && ext.provider != ""
    ensures IsMerge(AllViolation, local, ext, m) && IsReport(m, r)
    ensures r.Violation? && !Detects(AllViolation, local, ext, r.rule)
  {
    var agreed := Category("pii", true, 0.5, 0.5);
    var alone := Category("toxicity", true, 0.9, 0.5);
    local := Classification(true, [agreed, alone], "local");
    ext := Classification(true, [agreed], "external");
    m := Classification(true, [agreed, alone], "");
    r := Violation("toxicity", true);
    SaidOfTwo(local, ext, agreed, alone);
    assert agreed in local.categories && agreed in ext.categories && alone in local.categories;
    assert Detects(AllViolation, local, ext, "pii");
    assert IsFirstMaxAt([agreed, agreed], IsDetected, 0);
    assert IsFirstMaxAt([alone], Anything, 0);
    assert IsFirstMaxAt(m.categories, IsPositive, 1);
    assert alone in m.categories && agreed in m.categories;
  }

  /** When all must agree, the report names a category they agree on exactly when every other positive
      detection that is shown is matched by an agreed one at least as confident: a tie goes to the agreed
      category however the map is walked, since it is listed first. */
  lemma AgreedReportedIff(local: Classification, ext: Classification, m: Classification, r: Report)
    requires IsMerge(AllViolation, local, ext, m) && IsReport(m, r) && r.Violation?
    ensures Detects(AllViolation, local, ext, r.rule) <==>
              forall u :: Shown(AllViolation, local, ext, u) && IsPositive(u) ==>
                Detects(AllViolation, local, ext, u.name) || Matched(local, ext, u.confidence)
  {
    hide Detects, Said, IsEntry, Shown;
    var c :| IsFirstMax(m.categories, IsPositive, c) && c.name == r.rule;
    FirstMaxBounds(m.categories, IsPositive, c);
    ShownIff(AllViolation, local, ext, m, c);
    if Detects(AllViolation, local, ext, c.name) {
      forall u | Shown(AllViolation, local, ext, u) && IsPositive(u)
        ensures Matched(local, ext, u.confidence)
      {
        ShownIff(AllViolation, local, ext, m, u);
      }
    } else if Matched(local, ext, c.confidence) {
      AgreedWinsTies(local, ext, m, c);
    }
  }

  /** An agreed category of at least this confidence is shown. */
  ghost predicate Matched(local: Classification, ext: Classification, confidence: real) {
    exists a :: Shown(AllViolation, local, ext, a) && Detects(AllViolation, local, ext, a.name)
                && a.confidence >= confidence
  }

  lemma AgreedWinsTies(local: Classification, ext: Classification, m: Classification, c: Category)
    requires IsMerge(AllViolation, local, ext, m) && IsFirstMax(m.categories, IsPositive, c)
    requires !Detects(AllViolation, local, ext, c.name)
    ensures !Matched(local, ext, c.confidence)
  {
    hide Detects, Said, Shown;
    forall a | Shown(AllViolation, local, ext, a) && Detects(AllViolation, local, ext, a.name)
      ensures a.confidence < c.confidence
    {
      ShownIff(AllViolation, local, ext, m, a);
      AgreedIsDetected(local, ext, a);
      var i :| IsFirstMaxAt(m.categories, IsPositive, i) && m.categories[i] == c;
      var j :| 0 <= j < |m.categories| && m.categories[j] == a;
      assert j < i;
    }
  }

  lemma FirstMaxBounds(cats: seq<Category>, p: Category -> bool, c: Category)
    requires IsFirstMax(cats, p, c)
    ensures c in cats && p(c) && forall d :: d in cats && p(d) ==> d.confidence <= c.confidence
  {
    var i :| IsFirstMaxAt(cats, p, i) && cats[i] == c;
    forall d | d in cats && p(d)
      ensures d.confidence <= c.confidence
    {
      var j :| 0 <= j < |cats| && cats[j] == d;
    }
  }

  lemma AgreedIsDetected(local: Classification, ext: Classification, a: Category)
    requires IsEntry(AllViolation, local, ext, a) && Detects(AllViolation, local, ext, a.name)
    ensures a.detected
  {
  }

  lemma SaidOfTwo(local: Classification, ext: Classification, a: Category, b: Category)
    requires local.categories == [a, b] && ext.categories == [a] && a.name == "pii" && b.name == "toxicity"
    ensures Said(local, ext, "pii") == [a, a] && Said(local, ext, "toxicity") == [b]
  {
    assert [a, b] == [a] + [b] && [a] == [] + [a];
    NamedLast([], a, "pii");
    NamedLast([], a, "toxicity");
    NamedLast([a], b, "pii");
    NamedLast([a], b, "toxicity");
  }
}
