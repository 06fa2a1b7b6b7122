/** The two loops of the update executor's image steps, over the item tables in order,
    each putting one image per table into an insertion-ordered map. They are generic in
    the image type and take the per-table query as a function, so that what they promise
    about the map does not depend on how the SQL is built. */
module ImageLoops {

  import opened Options
  import opened Seqs
  import opened LinkedMaps

  /** `step` applied `n` times to `start`. */
  function Iterate<P>(step: P -> P, start: P, n: nat): P
    decreases n
  {
    if n == 0 then start else Iterate(step, step(start), n - 1)
  }

  /** The loop of `beforeImage` over the remaining item tables `rest`. `params` is the
      parameter list as the loop finds it; each round's `record` builds the table's query
      from that list and reads the rows, and `step` is what the round leaves in the list
      for the next table. The table's image is put under its name. */
  function CaptureBefore<P, V>(rest: seq<string>, params: P, step: P -> P, record: (string, P) -> V,
                               images: LinkedMap<V>): (r: LinkedMap<V>)
    requires images.Valid()
    ensures r.Valid()
    decreases |rest|
  {
    if |rest| == 0 then images
    else
      var images' := images.Put(rest[0], record(rest[0], params));
      CaptureBefore(rest[1..], step(params), step, record, images')
  }

  /** The before loop gives every item table an entry and leaves every other entry alone. */
  lemma {:induction false} CaptureBeforeEntries<P, V>(rest: seq<string>, params: P, step: P -> P,
                                                      record: (string, P) -> V, images: LinkedMap<V>)
    requires images.Valid()
    ensures forall t :: t in rest ==> CaptureBefore(rest, params, step, record, images).Get(t).Some?
    ensures forall t :: t !in rest ==> CaptureBefore(rest, params, step, record, images).Get(t) == images.Get(t)
    decreases |rest|
  {
    if |rest| > 0 {
      var itemTable := rest[0];
      var images' := images.Put(itemTable, record(itemTable, params));
      var r := CaptureBefore(rest, params, step, record, images);
      assert r == CaptureBefore(rest[1..], step(params), step, record, images');
      CaptureBeforeEntries(rest[1..], step(params), step, record, images');
      assert forall t :: t in rest <==> t == itemTable || t in rest[1..];
    }
  }

  /** The before loop only appends to the insertion order: the keys already present keep
      their places at the front. */
  lemma {:induction false} CaptureBeforePrefix<P, V>(rest: seq<string>, params: P, step: P -> P,
                                                     record: (string, P) -> V, images: LinkedMap<V>)
    requires images.Valid()
    ensures var r := CaptureBefore(rest, params, step, record, images);
            |images.keys| <= |r.keys| && r.keys[..|images.keys|] == images.keys
    decreases |rest|
  {
    if |rest| > 0 {
      var images' := images.Put(rest[0], record(rest[0], params));
      var r := CaptureBefore(rest[1..], step(params), step, record, images');
      assert CaptureBefore(rest, params, step, record, images) == r;
      CaptureBeforePrefix(rest[1..], step(params), step, record, images');
      PrefixOfPrefix(images.keys, images'.keys, r.keys);
    }
  }

  /** For distinct item tables not yet in the map, the before loop appends exactly those
      tables, left to right. */
  lemma {:induction false} CaptureBeforeOrder<P, V>(rest: seq<string>, params: P, step: P -> P,
                                                    record: (string, P) -> V, images: LinkedMap<V>)
    requires images.Valid()
    requires NoDuplicates(rest)
    requires forall t :: t in rest ==> t !in images.keys
    ensures CaptureBefore(rest, params, step, record, images).keys == images.keys + rest
    decreases |rest|
  {
    if |rest| > 0 {
      var itemTable := rest[0];
      var images' := images.Put(itemTable, record(itemTable, params));
      assert CaptureBefore(rest, params, step, record, images)
          == CaptureBefore(rest[1..], step(params), step, record, images');
      FreshTail(rest, images.keys);
      CaptureBeforeOrder(rest[1..], step(params), step, record, images');
      AppendMoved(images.keys, itemTable, rest[1..]);
    }
  }

  /** For distinct item tables, the i-th one's entry is its image built from the parameter
      list as `i` earlier rounds left it. */
  lemma {:induction false} CaptureBeforeValues<P, V>(rest: seq<string>, params: P, step: P -> P,
                                                     record: (string, P) -> V, images: LinkedMap<V>)
    requires images.Valid()
    requires NoDuplicates(rest)
    ensures forall i :: 0 <= i < |rest| ==>
              CaptureBefore(rest, params, step, record, images).Get(rest[i])
                == Some(record(rest[i], Iterate(step, params, i)))
    decreases |rest|
  {
    if |rest| > 0 {
      var itemTable := rest[0];
      var images' := images.Put(itemTable, record(itemTable, params));
      var r := CaptureBefore(rest, params, step, record, images);
      assert r == CaptureBefore(rest[1..], step(params), step, record, images');
      assert NoDuplicates(rest[1..]);
      CaptureBeforeValues(rest[1..], step(params), step, record, images');
      CaptureBeforeEntries(rest[1..], step(params), step, record, images');
      forall i | 0 <= i < |rest|
        ensures r.Get(rest[i]) == Some(record(rest[i], Iterate(step, params, i)))
      {
        if i == 0 {
          assert itemTable !in rest[1..];
        } else {
          assert rest[i] == rest[1..][i - 1];
          assert Iterate(step, params, i) == Iterate(step, step(params), i - 1);
        }
      }
    }
  }

  /** The before image the after-image query of `table` is keyed by: the executor's own,
      or else the one the caller passed in. */
  function BeforeImageFor<V>(stored: LinkedMap<V>, table: string, supplied: Option<V>): Option<V> {
    match stored.Get(table)
    case Some(image) => Some(image)
    case None => supplied
  }

  /** Where the after loop stops: the position of the first table in `rest` with neither
      a stored nor a supplied before image, or `|rest|` when there is none. */
  function FirstMissing<V>(rest: seq<string>, stored: LinkedMap<V>, supplied: Option<V>): (k: nat)
    ensures k <= |rest|
    ensures forall i :: 0 <= i < k ==> BeforeImageFor(stored, rest[i], supplied).Some?
    ensures k < |rest| ==> BeforeImageFor(stored, rest[k], supplied).None?
    decreases |rest|
  {
    if |rest| == 0 then 0
    else if BeforeImageFor(stored, rest[0], supplied).None? then 0
    else
      var k := FirstMissing(rest[1..], stored, supplied);
      assert forall i :: 1 <= i < k + 1 ==> rest[i] == rest[1..][i - 1];
      k + 1
  }

  /** The after loop goes through all tables exactly when each has a before image. */
  lemma FirstMissingAll<V>(rest: seq<string>, stored: LinkedMap<V>, supplied: Option<V>)
    ensures FirstMissing(rest, stored, supplied) == |rest|
            <==> forall t :: t in rest ==> BeforeImageFor(stored, t, supplied).Some?
  {
    var k := FirstMissing(rest, stored, supplied);
    if k < |rest| {
      assert rest[k] in rest;
    }
  }

  /** When every table has a stored before image, the after loop stops at none of them. */
  lemma FirstMissingNone<V>(rest: seq<string>, stored: LinkedMap<V>, supplied: Option<V>)
    requires forall i :: 0 <= i < |rest| ==> stored.Get(rest[i]).Some?
    ensures FirstMissing(rest, stored, supplied) == |rest|
    ensures rest[..FirstMissing(rest, stored, supplied)] == rest
  {
  }

  /** What the after loop leaves: the after map as far as it got, and the table it stopped
      at for want of a before image (`None` when it went through all tables). */
  datatype AfterLoop<V> = AfterLoop(images: LinkedMap<V>, missing: Option<string>)

  /** The loop of `afterImage` over the remaining item tables `rest`. A table with no
      before image ends the loop with the after images put so far kept. */
  function CaptureAfter<V>(rest: seq<string>, stored: LinkedMap<V>, supplied: Option<V>,
                           record: (string, V) -> V,
                           images: LinkedMap<V>): (r: AfterLoop<V>)
    requires images.Valid()
    ensures r.images.Valid()
    decreases |rest|
  {
    if |rest| == 0 then AfterLoop(images, None)
    else
      var itemTable := rest[0];
      match BeforeImageFor(stored, itemTable, supplied)
      case None => AfterLoop(images, Some(itemTable))
      case Some(tableBeforeImage) =>
        var images' := images.Put(itemTable, record(itemTable, tableBeforeImage));
        CaptureAfter(rest[1..], stored, supplied, record, images')
  }

  /** One round of the after loop on a table that has a before image: the rest of the loop
      runs on the remaining tables with that table's after image put. */
  lemma AfterStep<V>(rest: seq<string>, stored: LinkedMap<V>, supplied: Option<V>,
                     record: (string, V) -> V, images: LinkedMap<V>)
    requires images.Valid()
    requires |rest| > 0 && BeforeImageFor(stored, rest[0], supplied).Some?
    ensures var images' := images.Put(rest[0], record(rest[0], BeforeImageFor(stored, rest[0], supplied).value));
            CaptureAfter(rest, stored, supplied, record, images) == CaptureAfter(rest[1..], stored, supplied, record, images')
  {
  }

  /** On a table that has a before image, the after loop stops one place further on than
      it does on the remaining tables, having done that table too. */
  lemma StopStep<V>(rest: seq<string>, stored: LinkedMap<V>, supplied: Option<V>)
    requires |rest| > 0 && BeforeImageFor(stored, rest[0], supplied).Some?
    ensures FirstMissing(rest, stored, supplied) == FirstMissing(rest[1..], stored, supplied) + 1
    ensures rest[..FirstMissing(rest, stored, supplied)] == [rest[0]] + rest[1..][..FirstMissing(rest[1..], stored, supplied)]
  {
    var k := FirstMissing(rest[1..], stored, supplied);
    assert FirstMissing(rest, stored, supplied) == k + 1;
    assert rest[..k + 1] == [rest[0]] + rest[1..][..k] by {
      assert rest[..k + 1] == rest[..1] + rest[1..][..k];
    }
  }

  /** The after loop stops exactly when some item table has neither a stored nor a supplied
      before image, and then it names the first such table. */
  lemma {:induction false} CaptureAfterOutcome<V>(
    rest: seq<string>, stored: LinkedMap<V>, supplied: Option<V>,
    record: (string, V) -> V, images: LinkedMap<V>)
    requires images.Valid()
    ensures var r := CaptureAfter(rest, stored, supplied, record, images);
            var k := FirstMissing(rest, stored, supplied);
            && (r.missing.None? <==> k == |rest|)
            && (r.missing.Some? ==> r.missing.value == rest[k])
    decreases |rest|
  {
    if |rest| > 0 && BeforeImageFor(stored, rest[0], supplied).Some? {
      var images' := images.Put(rest[0], record(rest[0], BeforeImageFor(stored, rest[0], supplied).value));
      AfterStep(rest, stored, supplied, record, images);
      StopStep(rest, stored, supplied);
      CaptureAfterOutcome(rest[1..], stored, supplied, record, images');
    }
  }

  /** The after loop gives an entry to every table before the one it stops at, and leaves
      every other entry alone. */
  lemma {:induction false} CaptureAfterEntries<V>(
    rest: seq<string>, stored: LinkedMap<V>, supplied: Option<V>,
    record: (string, V) -> V, images: LinkedMap<V>)
    requires images.Valid()
    ensures var r := CaptureAfter(rest, stored, supplied, record, images).images;
            var done := rest[..FirstMissing(rest, stored, supplied)];
            && (forall t :: t in done ==> r.Get(t).Some?)
            && (forall t :: t !in done ==> r.Get(t) == images.Get(t))
    decreases |rest|
  {
    if |rest| > 0 && BeforeImageFor(stored, rest[0], supplied).Some? {
      var itemTable := rest[0];
      var images' := images.Put(itemTable, record(itemTable, BeforeImageFor(stored, itemTable, supplied).value));
      var done' := rest[1..][..FirstMissing(rest[1..], stored, supplied)];
      AfterStep(rest, stored, supplied, record, images);
      StopStep(rest, stored, supplied);
      CaptureAfterEntries(rest[1..], stored, supplied, record, images');
      assert forall t :: t in [itemTable] + done' <==> t == itemTable || t in done';
    }
  }

  /** The after loop only appends to the insertion order: the keys already present keep
      their places at the front. */
  lemma {:induction false} CaptureAfterPrefix<V>(
    rest: seq<string>, stored: LinkedMap<V>, supplied: Option<V>,
    record: (string, V) -> V, images: LinkedMap<V>)
    requires images.Valid()
    ensures var r := CaptureAfter(rest, stored, supplied, record, images).images;
            |images.keys| <= |r.keys| && r.keys[..|images.keys|] == images.keys
    decreases |rest|
  {
    if |rest| > 0 && BeforeImageFor(stored, rest[0], supplied).Some? {
      var images' := images.Put(rest[0], record(rest[0], BeforeImageFor(stored, rest[0], supplied).value));
      var r := CaptureAfter(rest[1..], stored, supplied, record, images').images;
      AfterStep(rest, stored, supplied, record, images);
      StopStep(rest, stored, supplied);
      CaptureAfterPrefix(rest[1..], stored, supplied, record, images');
      PrefixOfPrefix(images.keys, images'.keys, r.keys);
    }
  }

  /** For distinct item tables not yet in the map, the after loop appends exactly the
      tables before the one it stops at, left to right. */
  lemma {:induction false} CaptureAfterOrder<V>(
    rest: seq<string>, stored: LinkedMap<V>, supplied: Option<V>,
    record: (string, V) -> V, images: LinkedMap<V>)
    requires images.Valid()
    requires NoDuplicates(rest)
    requires forall t :: t in rest ==> t !in images.keys
    ensures CaptureAfter(rest, stored, supplied, record, images).images.keys
              == images.keys + rest[..FirstMissing(rest, stored, supplied)]
    decreases |rest|
  {
    if |rest| > 0 && BeforeImageFor(stored, rest[0], supplied).Some? {
      var itemTable := rest[0];
      var images' := images.Put(itemTable, record(itemTable, BeforeImageFor(stored, itemTable, supplied).value));
      var done' := rest[1..][..FirstMissing(rest[1..], stored, supplied)];
      AfterStep(rest, stored, supplied, record, images);
      StopStep(rest, stored, supplied);
      FreshTail(rest, images.keys);
      CaptureAfterOrder(rest[1..], stored, supplied, record, images');
      AppendMoved(images.keys, itemTable, done');
    }
  }

  /** For distinct item tables, the after loop stores under the i-th table, when it comes
      before the one the loop stops at, the rows its primary-key query returns, keyed by the
      before image chosen for it. */
  lemma {:induction false} CaptureAfterValueAt<V>(
    rest: seq<string>, stored: LinkedMap<V>, supplied: Option<V>,
    record: (string, V) -> V, images: LinkedMap<V>, i: nat)
    requires images.Valid()
    requires NoDuplicates(rest)
    requires i < FirstMissing(rest, stored, supplied)
    ensures BeforeImageFor(stored, rest[i], supplied).Some?
    ensures CaptureAfter(rest, stored, supplied, record, images).images.Get(rest[i])
              == Some(record(rest[i], BeforeImageFor(stored, rest[i], supplied).value))
    decreases |rest|
  {
    var itemTable := rest[0];
    assert BeforeImageFor(stored, itemTable, supplied).Some?;
    var images' := images.Put(itemTable, record(itemTable, BeforeImageFor(stored, itemTable, supplied).value));
    var k := FirstMissing(rest[1..], stored, supplied);
    AfterStep(rest, stored, supplied, record, images);
    StopStep(rest, stored, supplied);
    DistinctTail(rest, k);
    if i == 0 {
      CaptureAfterEntries(rest[1..], stored, supplied, record, images');
    } else {
      CaptureAfterValueAt(rest[1..], stored, supplied, record, images', i - 1);
      assert rest[i] == rest[1..][i - 1];
    }
  }

  /** The same for every table before the one the after loop stops at. */
  lemma CaptureAfterValues<V>(
    rest: seq<string>, stored: LinkedMap<V>, supplied: Option<V>,
    record: (string, V) -> V, images: LinkedMap<V>)
    requires images.Valid()
    requires NoDuplicates(rest)
    ensures forall i :: 0 <= i < FirstMissing(rest, stored, supplied) ==>
              && BeforeImageFor(stored, rest[i], supplied).Some?
              && CaptureAfter(rest, stored, supplied, record, images).images.Get(rest[i])
                   == Some(record(rest[i], BeforeImageFor(stored, rest[i], supplied).value))
  {
    forall i | 0 <= i < FirstMissing(rest, stored, supplied)
      ensures && BeforeImageFor(stored, rest[i], supplied).Some?
              && CaptureAfter(rest, stored, supplied, record, images).images.Get(rest[i])
                   == Some(record(rest[i], BeforeImageFor(stored, rest[i], supplied).value))
    {
      CaptureAfterValueAt(rest, stored, supplied, record, images, i);
    }
  }

}
