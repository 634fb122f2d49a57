/**
 * The tag state machine of `ParseOSM.ThirdPass.Metadata`, in the indexer's
 * converter (seven output fields, with the OSM id) and in the builder
 * (eight output fields, with an English name and a country code).
 *
 * A Java `null` string is `None`. Every `case` of `updateMetadata` sets one
 * field, either always ("strong" keys) or only while the field is still
 * `null` ("weak" keys); the lemmas below prove that each field follows that
 * rule, and from it which tag wins over a whole tag list.
 */
module OsmMeta {
  import opened Binary
  import opened HierarchicalMap

  /** One key/value pair of an OSM entity, either side possibly `null`. */
  datatype Tag = Tag(key: Option<string>, val: Option<string>)

  /** `String.substring(0, 2)` fails on a shorter value. */
  datatype MetaError = SubstringOutOfRange

  const TAB: char := '\t'

  /** `StringBuilder.append(String)`: a `null` string is written as "null". */
  function Str(s: Option<string>): string
  {
    if s.Some? then s.value else "null"
  }

  /** `a == null ? b : a`. */
  function Or(a: Option<string>, b: string): string
  {
    if a.Some? then a.value else b
  }

  // ---------------------------------------------------------------------
  // One field, one rule
  // ---------------------------------------------------------------------

  /** The value a weak key stores: the first two characters for the keys in `cut`. */
  function Cut(c: bool, v: string): string
  {
    if c && |v| >= 2 then v[..2] else v
  }

  /** How one field reacts to one tag: strong keys overwrite, weak keys fill a `null`. */
  function Rule(cur: Option<string>, t: Tag, strong: set<string>, weak: set<string>, cut: set<string>): Option<string>
  {
    if t.key.None? || t.val.None? then cur
    else if t.key.value in strong then Some(t.val.value)
    else if t.key.value in weak && cur.None? then Some(Cut(t.key.value in cut, t.val.value))
    else cur
  }

  /** The field after the tags, one after the other. */
  function FoldRule(cur: Option<string>, tags: seq<Tag>, strong: set<string>, weak: set<string>, cut: set<string>): Option<string>
    decreases |tags|
  {
    if tags == [] then cur
    else
      var n := |tags| - 1;
      Rule(FoldRule(cur, tags[..n], strong, weak, cut), tags[n], strong, weak, cut)
  }

  /** The value of the last tag with a strong key. */
  function LastStrong(tags: seq<Tag>, strong: set<string>): Option<string>
    decreases |tags|
  {
    if tags == [] then None
    else
      var n := |tags| - 1;
      var t := tags[n];
      if t.key.Some? && t.val.Some? && t.key.value in strong then t.val
      else LastStrong(tags[..n], strong)
  }

  /** The (possibly cut) value of the first tag with a weak key. */
  function FirstWeak(tags: seq<Tag>, weak: set<string>, cut: set<string>): (r: Option<string>)
    ensures weak == {} ==> r == None
    decreases |tags|
  {
    if tags == [] then None
    else
      var n := |tags| - 1;
      var t := tags[n];
      var before := FirstWeak(tags[..n], weak, cut);
      if before.Some? then before
      else if t.key.Some? && t.val.Some? && t.key.value in weak then Some(Cut(t.key.value in cut, t.val.value))
      else None
  }

  /**
   * Precedence over a tag list: the last strong tag wins; without one, a
   * value already there stays, else the first weak tag fills it.
   */
  lemma {:induction false} FoldRuleSpec(cur: Option<string>, tags: seq<Tag>, strong: set<string>, weak: set<string>, cut: set<string>)
    requires strong !! weak
    ensures FoldRule(cur, tags, strong, weak, cut) ==
      if LastStrong(tags, strong).Some? then LastStrong(tags, strong)
      else if cur.Some? then cur
      else FirstWeak(tags, weak, cut)
    decreases |tags|
  {
    if tags != [] {
      var n := |tags| - 1;
      FoldRuleSpec(cur, tags[..n], strong, weak, cut);
    }
  }

  // ---------------------------------------------------------------------
  // Tab-separated records
  // ---------------------------------------------------------------------

  /** The fields joined by single tabs. */
  function JoinTab(fs: seq<string>): string
    requires |fs| >= 1
    decreases |fs|
  {
    if |fs| == 1 then fs[0] else fs[0] + [TAB] + JoinTab(fs[1..])
  }

  /** Where the first tab is, if any. */
  function TabIndex(s: string): (r: Option<nat>)
    ensures r.Some? ==> r.value < |s| && s[r.value] == TAB && TAB !in s[..r.value]
    ensures r.None? ==> TAB !in s
  {
    if s == [] then None
    else if s[0] == TAB then Some(0)
    else match TabIndex(s[1..])
      case Some(i) => assert s[..i + 1] == [s[0]] + s[1..][..i]; Some(i + 1)
      case None => assert s == [s[0]] + s[1..]; None
  }

  /** The record cut at every tab. */
  function SplitTab(s: string): (r: seq<string>)
    ensures |r| >= 1
    decreases |s|
  {
    match TabIndex(s)
    case None => [s]
    case Some(i) => [s[..i]] + SplitTab(s[i + 1..])
  }

  /** Fields without tabs come back from their joined record. */
  lemma {:induction false} SplitJoin(fs: seq<string>)
    requires |fs| >= 1
    requires forall k :: 0 <= k < |fs| ==> TAB !in fs[k]
    ensures SplitTab(JoinTab(fs)) == fs
    decreases |fs|
  {
    if |fs| > 1 {
      var rest := JoinTab(fs[1..]);
      var s := fs[0] + [TAB] + rest;
      var i := |fs[0]|;
      assert s[..i] == fs[0] && s[i] == TAB && s[i + 1..] == rest;
      TabIndexAfter(fs[0], rest);
      SplitJoin(fs[1..]);
    }
  }

  /** The first tab after a tab-free prefix is the one right behind it. */
  lemma {:induction false} TabIndexAfter(a: string, b: string)
    requires TAB !in a
    ensures TabIndex(a + [TAB] + b) == Some(|a|)
    decreases |a|
  {
    var s := a + [TAB] + b;
    if a != [] {
      assert s[1..] == a[1..] + [TAB] + b;
      TabIndexAfter(a[1..], b);
    }
  }

  /** `Long.toString` of a non-negative number. */
  function Digits(n: nat): (r: string)
    ensures |r| >= 1 && forall k :: 0 <= k < |r| ==> '0' <= r[k] <= '9'
  {
    if n < 10 then [('0' as int + n) as char]
    else Digits(n / 10) + [('0' as int + n % 10) as char]
  }

  /** `Long.toString`. */
  function Decimal(n: int): (r: string)
    ensures TAB !in r
  {
    if n < 0 then "-" + Digits(-n) else Digits(n)
  }

  // ---------------------------------------------------------------------
  // The converter's metadata
  // ---------------------------------------------------------------------

  datatype ConvMeta = ConvMeta(levl: Option<string>, name: Option<string>, inam: Option<string>, wiki: Option<string>,
                               wikd: Option<string>, boun: Option<string>, plac: Option<string>, osid: Option<string>)

  /** `reset()`: every field `null`. */
  const CONV_EMPTY: ConvMeta := ConvMeta(None, None, None, None, None, None, None, None)

  /** The converter's `updateMetadata(key, val)`. */
  function ConvUpdate(m: ConvMeta, t: Tag): ConvMeta
  {
    if t.key.None? || t.val.None? then m
    else
      var k, v := t.key.value, t.val.value;
      if k == "admin_level" then m.(levl := Some(v))
      else if k == "name" || k == "place_name" then m.(name := Some(v))
      else if k == "name:en" || k == "place_name:en" then m.(inam := Some(v))
      else if k == "int_name" then m.(inam := if m.inam == None then Some(v) else m.inam)
      else if k == "place" || k == "de:place" || k == "boundary_type" then m.(plac := Some(v))
      else if k == "boundary" then m.(boun := Some(v))
      else if k == "wikipedia" then m.(wiki := Some(v))
      else if k == "wikipedia:en" then m.(wiki := if m.wiki == None then Some(v) else m.wiki)
      else if k == "wikidata" then m.(wikd := Some(v))
      else m
  }

  /** The tags applied in order. */
  function ConvApply(m: ConvMeta, tags: seq<Tag>): ConvMeta
    decreases |tags|
  {
    if tags == [] then m else ConvUpdate(ConvApply(m, tags[..|tags| - 1]), tags[|tags| - 1])
  }

  const LEVL_KEYS: set<string> := {"admin_level"}
  const NAME_KEYS: set<string> := {"name", "place_name"}
  const EN_KEYS: set<string> := {"name:en", "place_name:en"}
  const INT_KEYS: set<string> := {"int_name"}
  const PLAC_KEYS: set<string> := {"place", "de:place", "boundary_type"}
  const BOUN_KEYS: set<string> := {"boundary"}
  const WIKI_KEYS: set<string> := {"wikipedia"}
  const WIKI_EN_KEYS: set<string> := {"wikipedia:en"}
  const WIKD_KEYS: set<string> := {"wikidata"}

  /** Each field of the converter's metadata follows its own rule; `osid` is never touched by a tag. */
  lemma {:induction false} ConvUpdateRules(m: ConvMeta, t: Tag)
    ensures ConvUpdate(m, t).levl == Rule(m.levl, t, LEVL_KEYS, {}, {})
    ensures ConvUpdate(m, t).name == Rule(m.name, t, NAME_KEYS, {}, {})
    ensures ConvUpdate(m, t).inam == Rule(m.inam, t, EN_KEYS, INT_KEYS, {})
    ensures ConvUpdate(m, t).wiki == Rule(m.wiki, t, WIKI_KEYS, WIKI_EN_KEYS, {})
    ensures ConvUpdate(m, t).wikd == Rule(m.wikd, t, WIKD_KEYS, {}, {})
    ensures ConvUpdate(m, t).boun == Rule(m.boun, t, BOUN_KEYS, {}, {})
    ensures ConvUpdate(m, t).plac == Rule(m.plac, t, PLAC_KEYS, {}, {})
    ensures ConvUpdate(m, t).osid == m.osid
  {
  }

  /** Over a whole tag list, every field is the fold of its rule. */
  lemma {:induction false} ConvApplyRules(m: ConvMeta, tags: seq<Tag>)
    ensures ConvApply(m, tags).levl == FoldRule(m.levl, tags, LEVL_KEYS, {}, {})
    ensures ConvApply(m, tags).name == FoldRule(m.name, tags, NAME_KEYS, {}, {})
    ensures ConvApply(m, tags).inam == FoldRule(m.inam, tags, EN_KEYS, INT_KEYS, {})
    ensures ConvApply(m, tags).wiki == FoldRule(m.wiki, tags, WIKI_KEYS, WIKI_EN_KEYS, {})
    ensures ConvApply(m, tags).wikd == FoldRule(m.wikd, tags, WIKD_KEYS, {}, {})
    ensures ConvApply(m, tags).boun == FoldRule(m.boun, tags, BOUN_KEYS, {}, {})
    ensures ConvApply(m, tags).plac == FoldRule(m.plac, tags, PLAC_KEYS, {}, {})
    ensures ConvApply(m, tags).osid == m.osid
    decreases |tags|
  {
    if tags != [] {
      var n := |tags| - 1;
      ConvApplyRules(m, tags[..n]);
      ConvUpdateRules(ConvApply(m, tags[..n]), tags[n]);
    }
  }

  /**
   * After `reset(Relation)`/`reset(Way)` and the entity's tags: the English
   * name is the last `name:en`/`place_name:en`, else the first `int_name`;
   * the Wikipedia link the last `wikipedia`, else the first `wikipedia:en`;
   * the level, name, boundary, Wikidata id and place type the last tag of
   * their keys.
   */
  lemma {:induction false} ConvPrecedence(osid: string, tags: seq<Tag>)
    ensures var m := ConvApply(CONV_EMPTY.(osid := Some(osid)), tags);
      && m.inam == (if LastStrong(tags, EN_KEYS).Some? then LastStrong(tags, EN_KEYS) else FirstWeak(tags, INT_KEYS, {}))
      && m.wiki == (if LastStrong(tags, WIKI_KEYS).Some? then LastStrong(tags, WIKI_KEYS) else FirstWeak(tags, WIKI_EN_KEYS, {}))
      && m.levl == LastStrong(tags, LEVL_KEYS)
      && m.name == LastStrong(tags, NAME_KEYS)
      && m.boun == LastStrong(tags, BOUN_KEYS)
      && m.wikd == LastStrong(tags, WIKD_KEYS)
      && m.plac == LastStrong(tags, PLAC_KEYS)
      && m.osid == Some(osid)
  {
    var m0 := CONV_EMPTY.(osid := Some(osid));
    ConvApplyRules(m0, tags);
    FoldRuleSpec(None, tags, EN_KEYS, INT_KEYS, {});
    FoldRuleSpec(None, tags, WIKI_KEYS, WIKI_EN_KEYS, {});
    FoldRuleSpec(None, tags, LEVL_KEYS, {}, {});
    FoldRuleSpec(None, tags, NAME_KEYS, {}, {});
    FoldRuleSpec(None, tags, BOUN_KEYS, {}, {});
    FoldRuleSpec(None, tags, WIKD_KEYS, {}, {});
    FoldRuleSpec(None, tags, PLAC_KEYS, {}, {});
  }

  /** `accept()`. */
  predicate ConvAccept(m: ConvMeta)
  {
    m.levl.Some? && m.name.Some? && m.boun == Some("administrative")
  }

  /** An entity is accepted exactly when it has a level and a name tag and its last `boundary` tag is `administrative`. */
  lemma {:induction false} ConvAcceptTags(osid: string, tags: seq<Tag>)
    ensures ConvAccept(ConvApply(CONV_EMPTY.(osid := Some(osid)), tags)) <==>
      LastStrong(tags, LEVL_KEYS).Some? && LastStrong(tags, NAME_KEYS).Some? && LastStrong(tags, BOUN_KEYS) == Some("administrative")
  {
    ConvPrecedence(osid, tags);
  }

  /** The seven fields `append` writes, with their fallbacks. */
  function ConvFields(m: ConvMeta): (r: seq<string>)
    ensures |r| == 7
  {
    [Str(m.name), Or(m.inam, Str(m.name)), Or(m.plac, ""), Or(m.wiki, ""), Or(m.wikd, ""), Str(m.osid), Str(m.levl)]
  }

  /** `append(buf)`: the record text. */
  function ConvRecord(m: ConvMeta): string
  {
    JoinTab(ConvFields(m))
  }

  function NoTab(s: Option<string>): bool
  {
    s.None? || TAB !in s.value
  }

  /** With tab-free tag values the record splits back into exactly its seven fields. */
  lemma {:induction false} ConvRecordSplit(m: ConvMeta)
    requires NoTab(m.name) && NoTab(m.inam) && NoTab(m.plac) && NoTab(m.wiki) && NoTab(m.wikd) && NoTab(m.osid) && NoTab(m.levl)
    ensures SplitTab(ConvRecord(m)) == ConvFields(m)
    ensures var fs := SplitTab(ConvRecord(m));
      |fs| == 7 && fs[1] == (if m.inam.Some? then m.inam.value else Str(m.name))
      && fs[2] == (if m.plac.Some? then m.plac.value else "")
  {
    var fs := ConvFields(m);
    assert TAB !in "null" && TAB !in "";
    assert TAB !in fs[0] && TAB !in fs[1] && TAB !in fs[2] && TAB !in fs[3];
    assert TAB !in fs[4] && TAB !in fs[5] && TAB !in fs[6];
    SplitJoin(fs);
  }

  /** The converter's `Metadata` object. */
  class ConverterMetadata {
    var levl: Option<string>
    var name: Option<string>
    var inam: Option<string>
    var wiki: Option<string>
    var wikd: Option<string>
    var boun: Option<string>
    var plac: Option<string>
    var osid: Option<string>

    function Value(): ConvMeta
      reads this
    {
      ConvMeta(levl, name, inam, wiki, wikd, boun, plac, osid)
    }

    constructor ()
      ensures Value() == CONV_EMPTY
    {
      levl, name, inam, wiki, wikd, boun, plac, osid := None, None, None, None, None, None, None, None;
    }

    /** `reset()`. */
    method Reset()
      modifies this
      ensures Value() == CONV_EMPTY
    {
      levl, name, inam, wiki, wikd, boun, plac, osid := None, None, None, None, None, None, None, None;
    }

    /** `updateMetadata(key, val)`. */
    method UpdateMetadata(t: Tag)
      modifies this
      ensures Value() == ConvUpdate(old(Value()), t)
    {
      if t.key.None? || t.val.None? {
        return;
      }
      var k, v := t.key.value, t.val.value;
      if k == "admin_level" {
        levl := Some(v);
      } else if k == "name" || k == "place_name" {
        name := Some(v);
      } else if k == "name:en" || k == "place_name:en" {
        inam := Some(v);
      } else if k == "int_name" {
        inam := if inam == None then Some(v) else inam;
      } else if k == "place" || k == "de:place" || k == "boundary_type" {
        plac := Some(v);
      } else if k == "boundary" {
        boun := Some(v);
      } else if k == "wikipedia" {
        wiki := Some(v);
      } else if k == "wikipedia:en" {
        wiki := if wiki == None then Some(v) else wiki;
      } else if k == "wikidata" {
        wikd := Some(v);
      }
    }

    /** `reset(Relation)` (`kind` 'r') and `reset(Way)` (`kind` 'w'): clear, set the OSM id, apply the tags. */
    method ResetEntity(kind: char, id: i64, tags: seq<Tag>)
      modifies this
      ensures Value() == ConvApply(CONV_EMPTY.(osid := Some([kind] + Decimal(id))), tags)
    {
      Reset();
      osid := Some([kind] + Decimal(id));
      var i := 0;
      while i < |tags|
        invariant i <= |tags|
        invariant Value() == ConvApply(CONV_EMPTY.(osid := Some([kind] + Decimal(id))), tags[..i])
      {
        assert tags[..i + 1][..i] == tags[..i];
        UpdateMetadata(tags[i]);
        i := i + 1;
      }
      assert tags[..i] == tags;
    }

    /** `accept()`. */
    function Accept(): (r: bool)
      reads this
      ensures r <==> ConvAccept(Value())
    {
      levl != None && name != None && boun == Some("administrative")
    }

  }

  // ---------------------------------------------------------------------
  // The builder's metadata
  // ---------------------------------------------------------------------

  datatype BuildMeta = BuildMeta(levl: Option<string>, name: Option<string>, inam: Option<string>, enam: Option<string>,
                                 wiki: Option<string>, wikd: Option<string>, boun: Option<string>, coun: Option<string>,
                                 plac: Option<string>)

  const BUILD_EMPTY: BuildMeta := BuildMeta(None, None, None, None, None, None, None, None, None)

  /** The builder's `reset()`: every field `null` except `enam`, which keeps its value. */
  function BuildReset(m: BuildMeta): BuildMeta
  {
    BUILD_EMPTY.(enam := m.enam)
  }

  const COUN_KEYS: set<string> := {"is_in:country_code"}
  const COUN_NAME_KEYS: set<string> := {"addr:country", "is_in:country"}
  const ISO_KEYS: set<string> := {"ISO3166-1", "ISO3166-2", "is_in:iso_3166_1", "is_in:iso_3166_2"}

  /** The builder's `updateMetadata(key, val)`; the ISO keys fail on a value shorter than two characters while no country is set. */
  function BuildUpdate(m: BuildMeta, t: Tag): Result<BuildMeta, MetaError>
  {
    if t.key.None? || t.val.None? then Ok(m)
    else
      var k, v := t.key.value, t.val.value;
      if k == "admin_level" then Ok(m.(levl := Some(v)))
      else if k == "name" || k == "place_name" then Ok(m.(name := Some(v)))
      else if k == "int_name" then Ok(m.(inam := Some(v)))
      else if k == "name:en" || k == "place_name:en" then Ok(m.(enam := Some(v), inam := if m.inam == None then Some(v) else m.inam))
      else if k == "is_in:country_code" then Ok(m.(coun := Some(v)))
      else if k == "addr:country" || k == "is_in:country" then Ok(m.(coun := if m.coun == None then Some(v) else m.coun))
      else if k == "ISO3166-1" || k == "ISO3166-2" || k == "is_in:iso_3166_1" || k == "is_in:iso_3166_2" then
        if m.coun == None then (if |v| < 2 then Err(SubstringOutOfRange) else Ok(m.(coun := Some(v[..2])))) else Ok(m)
      else if k == "place" || k == "de:place" || k == "boundary_type" then Ok(m.(plac := Some(v)))
      else if k == "boundary" then Ok(m.(boun := Some(v)))
      else if k == "wikipedia" then Ok(m.(wiki := Some(v)))
      else if k == "wikipedia:en" then Ok(m.(wiki := if m.wiki == None then Some(v) else m.wiki))
      else if k == "wikidata" then Ok(m.(wikd := Some(v)))
      else Ok(m)
  }

  /** The tags applied in order, stopping at the first failure. */
  function BuildApply(m: BuildMeta, tags: seq<Tag>): Result<BuildMeta, MetaError>
    decreases |tags|
  {
    if tags == [] then Ok(m)
    else
      match BuildApply(m, tags[..|tags| - 1])
      case Err(e) => Err(e)
      case Ok(m') => BuildUpdate(m', tags[|tags| - 1])
  }

  /** Each field of the builder's metadata follows its own rule, whenever the update succeeds. */
  lemma {:induction false} BuildUpdateRules(m: BuildMeta, t: Tag)
    ensures BuildUpdate(m, t).Ok? ==>
      var r := BuildUpdate(m, t).value;
      && r.inam == Rule(m.inam, t, INT_KEYS, EN_KEYS, {})
      && r.enam == Rule(m.enam, t, EN_KEYS, {}, {})
      && r.coun == Rule(m.coun, t, COUN_KEYS, COUN_NAME_KEYS + ISO_KEYS, ISO_KEYS)
      && r.levl == Rule(m.levl, t, LEVL_KEYS, {}, {})
      && r.name == Rule(m.name, t, NAME_KEYS, {}, {})
      && r.boun == Rule(m.boun, t, BOUN_KEYS, {}, {})
      && r.wiki == Rule(m.wiki, t, WIKI_KEYS, WIKI_EN_KEYS, {})
      && r.wikd == Rule(m.wikd, t, WIKD_KEYS, {}, {})
      && r.plac == Rule(m.plac, t, PLAC_KEYS, {}, {})
  {
  }

  /** An update fails exactly on an ISO key with a one-character or empty value while no country is set. */
  lemma {:induction false} BuildUpdateFails(m: BuildMeta, t: Tag)
    ensures BuildUpdate(m, t).Err? <==>
      t.key.Some? && t.val.Some? && t.key.value in ISO_KEYS && m.coun.None? && |t.val.value| < 2
  {
  }

  lemma {:induction false} BuildApplyRules(m: BuildMeta, tags: seq<Tag>)
    ensures BuildApply(m, tags).Ok? ==>
      var r := BuildApply(m, tags).value;
      && r.inam == FoldRule(m.inam, tags, INT_KEYS, EN_KEYS, {})
      && r.enam == FoldRule(m.enam, tags, EN_KEYS, {}, {})
      && r.coun == FoldRule(m.coun, tags, COUN_KEYS, COUN_NAME_KEYS + ISO_KEYS, ISO_KEYS)
      && r.levl == FoldRule(m.levl, tags, LEVL_KEYS, {}, {})
      && r.name == FoldRule(m.name, tags, NAME_KEYS, {}, {})
      && r.boun == FoldRule(m.boun, tags, BOUN_KEYS, {}, {})
      && r.wiki == FoldRule(m.wiki, tags, WIKI_KEYS, WIKI_EN_KEYS, {})
      && r.wikd == FoldRule(m.wikd, tags, WIKD_KEYS, {}, {})
      && r.plac == FoldRule(m.plac, tags, PLAC_KEYS, {}, {})
    decreases |tags|
  {
    if tags != [] {
      var n := |tags| - 1;
      BuildApplyRules(m, tags[..n]);
      if BuildApply(m, tags[..n]).Ok? {
        BuildUpdateRules(BuildApply(m, tags[..n]).value, tags[n]);
      }
    }
  }

  /**
   * After `reset(Relation)`: the international name is the last `int_name`,
   * else the first English name; the country is the last
   * `is_in:country_code`, else the first country or ISO tag (ISO codes cut
   * to two characters); the Wikipedia link the last `wikipedia`, else the
   * first `wikipedia:en`; level, name, boundary, Wikidata id and place type
   * the last tag of their keys.
   */
  lemma {:induction false} BuildPrecedence(prev: BuildMeta, tags: seq<Tag>)
    ensures BuildApply(BuildReset(prev), tags).Ok? ==>
      var m := BuildApply(BuildReset(prev), tags).value;
      && m.inam == (if LastStrong(tags, INT_KEYS).Some? then LastStrong(tags, INT_KEYS) else FirstWeak(tags, EN_KEYS, {}))
      && m.coun == (if LastStrong(tags, COUN_KEYS).Some? then LastStrong(tags, COUN_KEYS)
                    else FirstWeak(tags, COUN_NAME_KEYS + ISO_KEYS, ISO_KEYS))
      && m.levl == LastStrong(tags, LEVL_KEYS)
      && m.name == LastStrong(tags, NAME_KEYS)
      && m.boun == LastStrong(tags, BOUN_KEYS)
      && m.wiki == (if LastStrong(tags, WIKI_KEYS).Some? then LastStrong(tags, WIKI_KEYS) else FirstWeak(tags, WIKI_EN_KEYS, {}))
      && m.wikd == LastStrong(tags, WIKD_KEYS)
      && m.plac == LastStrong(tags, PLAC_KEYS)
  {
    BuildApplyRules(BuildReset(prev), tags);
    FoldRuleSpec(None, tags, INT_KEYS, EN_KEYS, {});
    FoldRuleSpec(None, tags, COUN_KEYS, COUN_NAME_KEYS + ISO_KEYS, ISO_KEYS);
    FoldRuleSpec(None, tags, LEVL_KEYS, {}, {});
    FoldRuleSpec(None, tags, NAME_KEYS, {}, {});
    FoldRuleSpec(None, tags, BOUN_KEYS, {}, {});
    FoldRuleSpec(None, tags, WIKI_KEYS, WIKI_EN_KEYS, {});
    FoldRuleSpec(None, tags, WIKD_KEYS, {}, {});
    FoldRuleSpec(None, tags, PLAC_KEYS, {}, {});
  }

  /** Without tags, the builder's `reset(Relation)` still carries the previous entity's English name, and `reset(Way)` every field. */
  lemma {:induction false} BuildResetStale(x: string)
    ensures BuildApply(BuildReset(BUILD_EMPTY.(enam := Some(x))), []) == Ok(BUILD_EMPTY.(enam := Some(x)))
    ensures BuildApply(BUILD_EMPTY.(levl := Some(x), name := Some(x), boun := Some("administrative")), []).Ok?
    ensures BuildAccept(BuildApply(BUILD_EMPTY.(levl := Some(x), name := Some(x), boun := Some("administrative")), []).value)
  {
  }

  /** The reset both entity kinds evidently intend: nothing of the previous entity survives. */
  function BuildFresh(tags: seq<Tag>): Result<BuildMeta, MetaError>
  {
    BuildApply(BUILD_EMPTY, tags)
  }

  /** With the intended reset, the English name, level, name and boundary come from the entity's own tags only. */
  lemma {:induction false} BuildFreshOwnTags(tags: seq<Tag>)
    ensures BuildFresh(tags).Ok? ==>
      var m := BuildFresh(tags).value;
      && m.enam == LastStrong(tags, EN_KEYS)
      && m.levl == LastStrong(tags, LEVL_KEYS)
      && m.name == LastStrong(tags, NAME_KEYS)
      && m.boun == LastStrong(tags, BOUN_KEYS)
  {
    BuildApplyRules(BUILD_EMPTY, tags);
    FoldRuleSpec(None, tags, EN_KEYS, {}, {});
    FoldRuleSpec(None, tags, LEVL_KEYS, {}, {});
    FoldRuleSpec(None, tags, NAME_KEYS, {}, {});
    FoldRuleSpec(None, tags, BOUN_KEYS, {}, {});
  }

  /** `accept()`. */
  predicate BuildAccept(m: BuildMeta)
  {
    m.levl.Some? && m.name.Some? && m.boun == Some("administrative")
  }

  /** The eight fields `append` writes, with their fallbacks. */
  function BuildFields(m: BuildMeta): (r: seq<string>)
    ensures |r| == 8
  {
    [Str(m.name), Or(m.inam, Str(m.name)), Or(m.enam, Str(m.name)), Or(m.coun, ""), Or(m.plac, ""), Or(m.wiki, ""), Or(m.wikd, ""), Str(m.levl)]
  }

  /** `append(buf)`: the record text. */
  function BuildRecord(m: BuildMeta): string
  {
    JoinTab(BuildFields(m))
  }

  /** With tab-free tag values the record splits back into exactly its eight fields. */
  lemma {:induction false} BuildRecordSplit(m: BuildMeta)
    requires NoTab(m.name) && NoTab(m.inam) && NoTab(m.enam) && NoTab(m.coun) && NoTab(m.plac)
    requires NoTab(m.wiki) && NoTab(m.wikd) && NoTab(m.levl)
    ensures SplitTab(BuildRecord(m)) == BuildFields(m)
    ensures var fs := SplitTab(BuildRecord(m));
      |fs| == 8 && fs[2] == (if m.enam.Some? then m.enam.value else Str(m.name))
      && fs[3] == (if m.coun.Some? then m.coun.value else "")
  {
    var fs := BuildFields(m);
    assert TAB !in "null" && TAB !in "";
    assert TAB !in fs[0] && TAB !in fs[1] && TAB !in fs[2] && TAB !in fs[3];
    assert TAB !in fs[4] && TAB !in fs[5] && TAB !in fs[6] && TAB !in fs[7];
    SplitJoin(fs);
  }

  /** The builder's `Metadata` object. */
  class BuilderMetadata {
    var levl: Option<string>
    var name: Option<string>
    var inam: Option<string>
    var enam: Option<string>
    var wiki: Option<string>
    var wikd: Option<string>
    var boun: Option<string>
    var coun: Option<string>
    var plac: Option<string>

    function Value(): BuildMeta
      reads this
    {
      BuildMeta(levl, name, inam, enam, wiki, wikd, boun, coun, plac)
    }

    constructor ()
      ensures Value() == BUILD_EMPTY
    {
      levl, name, inam, enam, wiki, wikd, boun, coun, plac := None, None, None, None, None, None, None, None, None;
    }

    /** `reset()`: `enam` is not cleared. */
    method Reset()
      modifies this
      ensures Value() == BuildReset(old(Value()))
    {
      levl, name, boun, inam, wiki, wikd, coun, plac := None, None, None, None, None, None, None, None;
    }

    /** `updateMetadata(key, val)`; on failure the fields are as Java leaves them when `substring` throws. */
    method UpdateMetadata(t: Tag) returns (r: Result<(), MetaError>)
      modifies this
      ensures r.Ok? <==> BuildUpdate(old(Value()), t).Ok?
      ensures r.Ok? ==> Value() == BuildUpdate(old(Value()), t).value
      ensures r.Err? ==> Value() == old(Value())
    {
      if t.key.None? || t.val.None? {
        return Ok(());
      }
      var k, v := t.key.value, t.val.value;
      r := Ok(());
      if k == "admin_level" {
        levl := Some(v);
      } else if k == "name" || k == "place_name" {
        name := Some(v);
      } else if k == "int_name" {
        inam := Some(v);
      } else if k == "name:en" || k == "place_name:en" {
        enam := Some(v);
        inam := if inam == None then Some(v) else inam;
      } else if k == "is_in:country_code" {
        coun := Some(v);
      } else if k == "addr:country" || k == "is_in:country" {
        coun := if coun == None then Some(v) else coun;
      } else if k == "ISO3166-1" || k == "ISO3166-2" || k == "is_in:iso_3166_1" || k == "is_in:iso_3166_2" {
        if coun == None {
          if |v| < 2 {
            return Err(SubstringOutOfRange);
          }
          coun := Some(v[..2]);
        }
      } else if k == "place" || k == "de:place" || k == "boundary_type" {
        plac := Some(v);
      } else if k == "boundary" {
        boun := Some(v);
      } else if k == "wikipedia" {
        wiki := Some(v);
      } else if k == "wikipedia:en" {
        wiki := if wiki == None then Some(v) else wiki;
      } else if k == "wikidata" {
        wikd := Some(v);
      }
    }

    /** Applies the tags in order; stops at the first failing one. */
    method ApplyTags(tags: seq<Tag>) returns (r: Result<(), MetaError>)
      modifies this
      ensures r.Ok? <==> BuildApply(old(Value()), tags).Ok?
      ensures r.Ok? ==> Value() == BuildApply(old(Value()), tags).value
    {
      var i := 0;
      while i < |tags|
        invariant i <= |tags|
        invariant BuildApply(old(Value()), tags[..i]) == Ok(Value())
      {
        assert tags[..i + 1][..i] == tags[..i];
        var step := UpdateMetadata(tags[i]);
        if step.Err? {
          assert BuildApply(old(Value()), tags[..i + 1]).Err?;
          BuildApplyStops(old(Value()), tags, i + 1);
          return Err(step.error);
        }
        i := i + 1;
      }
      assert tags[..i] == tags;
      return Ok(());
    }

    /** `reset(Relation)`: `reset()`, then the tags. */
    method ResetRelation(tags: seq<Tag>) returns (r: Result<(), MetaError>)
      modifies this
      ensures r.Ok? <==> BuildApply(BuildReset(old(Value())), tags).Ok?
      ensures r.Ok? ==> Value() == BuildApply(BuildReset(old(Value())), tags).value
    {
      Reset();
      r := ApplyTags(tags);
    }

    /** `reset(Way)`: the tags only, on top of whatever the previous entity left. */
    method ResetWay(tags: seq<Tag>) returns (r: Result<(), MetaError>)
      modifies this
      ensures r.Ok? <==> BuildApply(old(Value()), tags).Ok?
      ensures r.Ok? ==> Value() == BuildApply(old(Value()), tags).value
    {
      r := ApplyTags(tags);
    }

    /** `accept()`. */
    function Accept(): (r: bool)
      reads this
      ensures r <==> BuildAccept(Value())
    {
      levl != None && name != None && boun == Some("administrative")
    }

  }

  /** Once a prefix of the tags fails, the whole list fails. */
  lemma {:induction false} BuildApplyStops(m: BuildMeta, tags: seq<Tag>, n: nat)
    requires n <= |tags| && BuildApply(m, tags[..n]).Err?
    ensures BuildApply(m, tags).Err?
    decreases |tags| - n
  {
    if n < |tags| {
      assert tags[..n + 1][..n] == tags[..n];
      BuildApplyStops(m, tags, n + 1);
    } else {
      assert tags[..n] == tags;
    }
  }
}
