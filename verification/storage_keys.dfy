/** Keys in the browser's storage: `${prefix}queue:${name}:${queue}` (src/connections/local-storage.connection.ts:296-298, 355-366). */
module StorageKeys {
  import opened JsStrings
  import opened CanonicalKey

  const QUEUE_PART: JsString := [113, 117, 101, 117, 101, 58]  // "queue:"

  /** What all keys of a connection start with. */
  function OwnPrefix(prefix: JsString, name: JsString): JsString {
    prefix + QUEUE_PART + (name + [COLON])
  }

  function KeyFor(prefix: JsString, name: JsString, queue: JsString): JsString {
    OwnPrefix(prefix, name) + queue
  }

  predicate StartsWith(key: JsString, start: JsString) {
    |start| <= |key| && key[..|start|] == start
  }

  /** A key is spelled `<prefix>queue:<name>:<tube>`. */
  lemma KeysAreSpelledOut(prefix: JsString, name: JsString, queue: JsString)
    ensures KeyFor(prefix, name, queue) == prefix + Js("queue:") + name + Js(":") + queue
  {
    var word := "queue:";
    assert word[0] == 'q' && word[1] == 'u' && word[2] == 'e' && word[3] == 'u' && word[4] == 'e' && word[5] == ':';
    assert Js(word) == QUEUE_PART && Js(":") == [COLON];
    assert (prefix + QUEUE_PART) + (name + [COLON]) == prefix + QUEUE_PART + name + [COLON];
  }

  /** Slicing off the prefix recovers the tube, whatever its name; so keys of different tubes differ. */
  lemma SlicingUndoesPrefixing(prefix: JsString, name: JsString, queue: JsString)
    ensures StartsWith(KeyFor(prefix, name, queue), OwnPrefix(prefix, name))
    ensures KeyFor(prefix, name, queue)[|OwnPrefix(prefix, name)|..] == queue
  {
  }

  lemma KeyOfSlice(prefix: JsString, name: JsString, key: JsString)
    requires StartsWith(key, OwnPrefix(prefix, name))
    ensures KeyFor(prefix, name, key[|OwnPrefix(prefix, name)|..]) == key
  {
  }

  /** Some tube of connection `other` looks like a tube of connection `name`. */
  ghost predicate Sees(prefix: JsString, name: JsString, other: JsString) {
    exists queue :: StartsWith(KeyFor(prefix, other, queue), OwnPrefix(prefix, name))
  }

  /** A tube that is seen is shared: some tube of its own has the same key. */
  lemma SeenTubesAreShared(prefix: JsString, name: JsString, other: JsString)
    ensures Sees(prefix, name, other)
            <==> exists mine, theirs :: KeyFor(prefix, name, mine) == KeyFor(prefix, other, theirs)
  {
    if Sees(prefix, name, other) {
      var theirs :| StartsWith(KeyFor(prefix, other, theirs), OwnPrefix(prefix, name));
      KeyOfSlice(prefix, name, KeyFor(prefix, other, theirs));
    }
    if mine, theirs :| KeyFor(prefix, name, mine) == KeyFor(prefix, other, theirs) {
      SlicingUndoesPrefixing(prefix, name, mine);
    }
  }

  lemma StartsWithAfterCommon(common: JsString, a: JsString, b: JsString)
    ensures StartsWith(common + a, common + b) <==> StartsWith(a, b)
  {
    if |b| <= |a| {
      assert (common + a)[..|common + b|] == common + a[..|b|];
      if (common + a)[..|common + b|] == common + b {
        assert a[..|b|] == (common + a[..|b|])[|common|..] == (common + b)[|common|..] == b;
      }
    }
  }

  /** One connection sees a tube of another exactly when one of `name:` and `other:` starts with the other. */
  lemma SeesExactlyOnCommonStart(prefix: JsString, name: JsString, other: JsString)
    ensures Sees(prefix, name, other)
            <==> StartsWith(other + [COLON], name + [COLON]) || StartsWith(name + [COLON], other + [COLON])
  {
    var (own, theirs, common) := (name + [COLON], other + [COLON], prefix + QUEUE_PART);
    if Sees(prefix, name, other) {
      var queue :| StartsWith(KeyFor(prefix, other, queue), OwnPrefix(prefix, name));
      assert KeyFor(prefix, other, queue) == common + (theirs + queue);
      StartsWithAfterCommon(common, theirs + queue, own);
      if |own| <= |theirs| {
        assert theirs[..|own|] == (theirs + queue)[..|own|];
      } else {
        assert own[..|theirs|] == (theirs + queue)[..|own|][..|theirs|] == theirs;
      }
    }
    if StartsWith(theirs, own) {
      assert theirs + [] == theirs;
      StartsWithAfterCommon(common, theirs, own);
      assert KeyFor(prefix, other, []) == common + theirs;
    } else if StartsWith(own, theirs) {
      var queue := own[|theirs|..];
      assert theirs + queue == own;
      StartsWithAfterCommon(common, own, own);
      assert KeyFor(prefix, other, queue) == common + (theirs + queue);
    }
  }

  /** Colon-free names are either equal or blind to each other. */
  lemma ColonFreeNamesAreIsolated(prefix: JsString, name: JsString, other: JsString)
    requires COLON !in name && COLON !in other && name != other
    ensures !Sees(prefix, name, other) && !Sees(prefix, other, name)
  {
    var (own, theirs) := (name + [COLON], other + [COLON]);
    SeesExactlyOnCommonStart(prefix, name, other);
    SeesExactlyOnCommonStart(prefix, other, name);
    if StartsWith(own, theirs) { StartMeansColonOrEqual(name, other); }
    if StartsWith(theirs, own) { StartMeansColonOrEqual(other, name); }
  }

  lemma StartMeansColonOrEqual(a: JsString, b: JsString)
    requires StartsWith(a + [COLON], b + [COLON])
    ensures a == b || COLON in a
  {
    var (x, y) := (a + [COLON], b + [COLON]);
    assert x[|b|] == x[..|y|][|b|] == COLON;
    if |b| == |a| {
      assert x[..|y|] == x;
      assert a == x[..|a|] == y[..|b|] == b;
    } else {
      assert a[|b|] == COLON;
    }
  }
}
