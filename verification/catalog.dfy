/**
 * The tag catalog: the id-keyed map of tag descriptions the detector loads
 * from its `tag_descriptions` parameter at construction.
 */
module Catalog {
  import opened Wrappers
  import opened Decimal

  /** One well-typed entry of the parameter list: an id, a size, an optional frame. */
  datatype TagEntry = TagEntry(id: int, size: real, frameId: Option<string>)

  /** What the detector knows about one tag id. */
  datatype Description = Description(id: int, size: real, frameName: string)

  /** The detector's `descriptions_`: tag id to description. */
  type Descriptions = map<int, Description>

  /** The `tag_descriptions` parameter as the constructor finds it. */
  datatype TagParam =
    | Missing                        // the parameter is not set
    | Malformed                      // a value whose conversion raises an XmlRpc exception
    | Entries(entries: seq<TagEntry>)

  /** The frame name of a tag whose entry gives none: "tag_" and the decimal id. */
  function DefaultFrameName(id: int): (s: string)
    ensures |s| > 4 && s[..4] == "tag_"
    ensures var digits := s[4..];
            (if digits[0] == '-' then AllDigits(digits[1..]) else AllDigits(digits)) && IntValue(digits) == id
    ensures s[4] == '0' ==> s == "tag_0"
    ensures s[4] == '-' ==> |s| >= 6 && s[5] != '0'
  {
    var s := "tag_" + IntToDecimal(id);
    assert s[4..] == IntToDecimal(id);
    s
  }

  /** The description built from one entry. */
  function Describe(e: TagEntry): Description {
    Description(e.id, e.size, e.frameId.GetOr(DefaultFrameName(e.id)))
  }

  /** Every key maps to the description of its own id. */
  ghost predicate WellKeyed(c: Descriptions) {
    forall k :: k in c ==> c[k].id == k
  }

  /** The ids the entries mention. */
  ghost function Ids(es: seq<TagEntry>): set<int> {
    set i | 0 <= i < |es| :: es[i].id
  }

  /** Entry `i` is the first one in `es` with its id. */
  ghost predicate FirstWithId(es: seq<TagEntry>, i: int)
    requires 0 <= i < |es|
  {
    forall j :: 0 <= j < i ==> es[j].id != es[i].id
  }

  /** Each id maps to the description of the first entry carrying it. */
  ghost predicate KeepsFirst(es: seq<TagEntry>, c: Descriptions) {
    forall i :: 0 <= i < |es| && FirstWithId(es, i) ==> es[i].id in c && c[es[i].id] == Describe(es[i])
  }

  /**
   * `c` is the catalog of `es`: its keys are exactly the entries' ids, each
   * id maps to the description of its first entry, and so to a description
   * of that same id.
   */
  ghost predicate BuiltFrom(es: seq<TagEntry>, c: Descriptions) {
    && c.Keys == Ids(es)
    && KeepsFirst(es, c)
    && WellKeyed(c)
  }

  /**
   * The catalog built from the entries in order. Inserting into the map never
   * overwrites, so of several entries with one id the first is kept.
   */
  function ParseTagDescriptions(es: seq<TagEntry>): (c: Descriptions)
    ensures c.Keys == Ids(es)
    ensures KeepsFirst(es, c)
    ensures WellKeyed(c)
    decreases |es|
  {
    if |es| == 0 then map[]
    else
      var pre := es[..|es| - 1];
      var c0 := ParseTagDescriptions(pre);
      InsertStep(es, c0);
      Insert(c0, es[|es| - 1])
  }

  /** `std::map::insert` of an entry's description: it adds a new id and never overwrites an existing one. */
  function Insert(c: Descriptions, e: TagEntry): (r: Descriptions)
    ensures r.Keys == c.Keys + {e.id}
    ensures forall k :: k in c ==> r[k] == c[k]
    ensures e.id !in c ==> r[e.id] == Describe(e)
  {
    if e.id in c then c else c[e.id := Describe(e)]
  }

  /** The inductive step of the catalog builder. */
  lemma InsertStep(es: seq<TagEntry>, c0: Descriptions)
    requires |es| > 0 && BuiltFrom(es[..|es| - 1], c0)
    ensures BuiltFrom(es, Insert(c0, es[|es| - 1]))
  {
    var pre, e := es[..|es| - 1], es[|es| - 1];
    assert es == pre + [e];
    InsertKeepsKeys(pre, e, c0);
    InsertKeepsFirst(pre, e, c0);
    InsertKeepsWellKeyed(c0, e);
  }

  lemma InsertKeepsKeys(pre: seq<TagEntry>, e: TagEntry, c0: Descriptions)
    requires c0.Keys == Ids(pre)
    ensures Insert(c0, e).Keys == Ids(pre + [e])
  {
    IdsSnoc(pre, e);
  }

  lemma InsertKeepsFirst(pre: seq<TagEntry>, e: TagEntry, c0: Descriptions)
    requires c0.Keys == Ids(pre)
    requires KeepsFirst(pre, c0)
    ensures KeepsFirst(pre + [e], Insert(c0, e))
  {
    var es := pre + [e];
    var c := Insert(c0, e);
    if e.id in c0 {
      var j :| 0 <= j < |pre| && pre[j].id == e.id;
      assert es[j] == pre[j];
      assert !FirstWithId(es, |pre|);
    }
    forall i | 0 <= i < |pre| && FirstWithId(es, i) ensures es[i].id in c && c[es[i].id] == Describe(es[i]) {
      assert es[i] == pre[i];
      assert FirstWithId(pre, i) by {
        forall j | 0 <= j < i ensures pre[j].id != pre[i].id {
          assert es[j] == pre[j];
        }
      }
    }
  }

  lemma InsertKeepsWellKeyed(c0: Descriptions, e: TagEntry)
    requires WellKeyed(c0)
    ensures WellKeyed(Insert(c0, e))
  {
    var c := Insert(c0, e);
    forall k | k in c ensures c[k].id == k {
      if k != e.id { assert c[k] == c0[k]; }
    }
  }

  lemma IdsSnoc(pre: seq<TagEntry>, e: TagEntry)
    ensures Ids(pre + [e]) == Ids(pre) + {e.id}
  {
    var es := pre + [e];
    forall k | k in Ids(es) ensures k in Ids(pre) + {e.id} {
      var i :| 0 <= i < |es| && es[i].id == k;
      if i < |pre| { assert es[i] == pre[i]; }
    }
    forall k | k in Ids(pre) ensures k in Ids(es) {
      var i :| 0 <= i < |pre| && pre[i].id == k;
      assert es[i] == pre[i];
    }
    assert es[|pre|] == e;
  }

  /** The catalog the constructor ends up with: empty when the parameter is absent or malformed. */
  function LoadCatalog(param: TagParam): (c: Descriptions)
    ensures !param.Entries? ==> c == map[]
    ensures param.Entries? ==> BuiltFrom(param.entries, c)
    ensures WellKeyed(c)
  {
    match param
    case Missing => map[]
    case Malformed => map[]
    case Entries(es) => ParseTagDescriptions(es)
  }

  /** An entry whose id is already taken changes nothing: later duplicates are ignored. */
  lemma {:induction false} LaterDuplicateIgnored(es: seq<TagEntry>, e: TagEntry)
    requires e.id in Ids(es)
    ensures ParseTagDescriptions(es + [e]) == ParseTagDescriptions(es)
  {
    assert (es + [e])[..|es|] == es;
  }

  /** A new id is added with exactly its own description and nothing else changes. */
  lemma {:induction false} NewIdAdded(es: seq<TagEntry>, e: TagEntry)
    requires e.id !in Ids(es)
    ensures ParseTagDescriptions(es + [e]) == ParseTagDescriptions(es)[e.id := Describe(e)]
  {
    assert (es + [e])[..|es|] == es;
  }

  /** A tag without a configured frame is named "tag_" and its id, and those names never collide. */
  lemma DefaultFrameNamesDistinct(a: int, b: int)
    requires DefaultFrameName(a) == DefaultFrameName(b)
    ensures a == b
  {
    assert IntToDecimal(a) == DefaultFrameName(a)[4..] == DefaultFrameName(b)[4..] == IntToDecimal(b);
    IntToDecimalInjective(a, b);
  }

  /** Two entries for id 5: the first entry's size and frame are kept. */
  lemma FirstDuplicateWinsExample()
    ensures var c := ParseTagDescriptions([TagEntry(5, 0.1, Some("first")), TagEntry(5, 0.2, Some("second"))]);
            5 in c && c[5] == Description(5, 0.1, "first")
  {
    var es := [TagEntry(5, 0.1, Some("first")), TagEntry(5, 0.2, Some("second"))];
    assert FirstWithId(es, 0);
  }

  /** An entry without a frame for id 5 is named "tag_5". */
  lemma DefaultFrameNameExample()
    ensures Describe(TagEntry(5, 0.2, None)).frameName == "tag_5"
  {
  }

  /** A negative id keeps its sign in the default name. */
  lemma NegativeIdFrameNameExample()
    ensures Describe(TagEntry(-12, 0.2, None)).frameName == "tag_-12"
  {
    assert NatToDecimal(1) == "1";
    assert NatToDecimal(12) == NatToDecimal(1) + [DigitChar(2)];
  }
}
