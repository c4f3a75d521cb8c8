/** api/neurolibre_celery_tasks.py, the archive deposit path:
    zenodo_create_buckets_task (author normalisation, one bucket per asset,
    rollback when any creation is refused) and the receipt that
    zenodo_upload_book_task leaves behind.

    The Zenodo, GitHub and git answers are parameters: `calls(i)` is what
    the i-th bucket creation sees, `deletes(j)` the `str()` of the j-th
    delete response. */
module Deposit {
  import opened Results
  import opened Strings
  import opened Dicts
  import opened Common
  import opened Preprint

  // ---------------------------------------------------------------------
  // First affiliations
  // ---------------------------------------------------------------------

  /** One entry of the paper's affiliation list. */
  datatype Affiliation = Affiliation(index: Scalar, name: string)

  /** Python `str()` of a scalar. */
  function PyStr(v: Scalar): (r: string)
    ensures ',' !in r || v.SStr?
  {
    match v
    case SNull => "None"
    case SInt(i) =>
      var d := if i < 0 then NatToString(-i) else NatToString(i);
      assert ',' !in d by {
        forall j | 0 <= j < |d| ensures d[j] != ',' {
          assert IsDigit(d[j]);
        }
      }
      if i < 0 then "-" + d else d
    case SStr(s) => s
  }

  /** The `(str(a['index']), a['name'])` pairs of the affiliation list. */
  function AffiliationPairs(affs: seq<Affiliation>): (r: seq<(string, string)>)
    ensures |r| == |affs|
    ensures forall i :: 0 <= i < |affs| ==> r[i] == (PyStr(affs[i].index), affs[i].name)
  {
    seq(|affs|, i requires 0 <= i < |affs| => (PyStr(affs[i].index), affs[i].name))
  }

  /** `{str(a['index']): a['name'] for a in affiliations}`. */
  function AffiliationMapping(affs: seq<Affiliation>): Dict<string> {
    FromPairs(AffiliationPairs(affs))
  }

  /** A key of the mapping names the last affiliation whose index prints
      as that key; a key no index prints as is missing. */
  lemma AffiliationMappingLookup(affs: seq<Affiliation>, key: string, i: nat)
    requires i < |affs| && PyStr(affs[i].index) == key
    requires forall j :: i < j < |affs| ==> PyStr(affs[j].index) != key
    ensures Get(AffiliationMapping(affs), key) == Some(affs[i].name)
  {
    FromPairsLast(AffiliationPairs(affs), key, i);
  }

  lemma AffiliationMappingMissing(affs: seq<Affiliation>, key: string)
    ensures Get(AffiliationMapping(affs), key).None? <==> forall i :: 0 <= i < |affs| ==> PyStr(affs[i].index) != key
  {
    FromPairsMissing(AffiliationPairs(affs), key);
  }

  /** The first piece of a split is a prefix of the string. */
  lemma SplitFirstIsPrefix(s: string, sep: char)
    ensures StartsWith(s, Split(s, sep)[0])
  {
    var parts := Split(s, sep);
    if |parts| > 1 {
      assert Join(parts, [sep]) == parts[0] + [sep] + Join(parts[1..], [sep]);
    }
  }

  /** The key of an author's first affiliation: an integer goes through
      `str`, a string is cut at its first comma without stripping, a
      missing `affiliation` raises KeyError and None raises AttributeError
      (it has no `split`). */
  function FirstIndexKey(author: Dict<Scalar>): (r: Result<string>)
    ensures r.Ok? ==> ',' !in r.value
    ensures r.Err? <==> Get(author, "affiliation").None? || Get(author, "affiliation") == Some(SNull)
    ensures r.Ok? && Get(author, "affiliation").value.SStr? ==> StartsWith(Get(author, "affiliation").value.s, r.value)
    ensures r.Ok? && Get(author, "affiliation").value.SInt? ==> r.value == PyStr(Get(author, "affiliation").value)
  {
    var a: Option<Scalar> := Get(author, "affiliation");
    match a
    case None => Err(Raised("KeyError"))
    case Some(SNull) => Err(Raised("AttributeError"))
    case Some(SInt(i)) => Ok(PyStr(SInt(i)))
    case Some(SStr(s)) =>
      SplitFirstIsPrefix(s, ',');
      Ok(Split(s, ',')[0])
  }

  /** `affiliation_mapping[str(affiliation_index)]` for one author. */
  function FirstAffiliationOf(author: Dict<Scalar>, mapping: Dict<string>): Result<string> {
    match FirstIndexKey(author)
    case Err(e) => Err(e)
    case Ok(k) =>
      match Get(mapping, k)
      case None => Err(Raised("KeyError"))
      case Some(name) => Ok(name)
  }

  /** The first loop, from `acc` on: every author's first affiliation, or
      the first exception. */
  function FirstAffiliationsFrom(authors: seq<Dict<Scalar>>, mapping: Dict<string>, acc: seq<string>): Result<seq<string>>
    decreases |authors|
  {
    if authors == [] then Ok(acc)
    else
      match FirstAffiliationOf(authors[0], mapping)
      case Err(e) => Err(e)
      case Ok(a) => FirstAffiliationsFrom(authors[1..], mapping, acc + [a])
  }

  /** The first affiliation of every author, in order. */
  function FirstAffiliationNames(authors: seq<Dict<Scalar>>, mapping: Dict<string>): (r: seq<string>)
    requires forall i :: 0 <= i < |authors| ==> FirstAffiliationOf(authors[i], mapping).Ok?
    ensures |r| == |authors|
  {
    seq(|authors|, i requires 0 <= i < |authors| => FirstAffiliationOf(authors[i], mapping).value)
  }

  /** The loop succeeds only when every author's first affiliation
      resolves. */
  lemma {:induction false} FirstAffiliationsOnlyIfAll(authors: seq<Dict<Scalar>>, mapping: Dict<string>, acc: seq<string>)
    requires FirstAffiliationsFrom(authors, mapping, acc).Ok?
    ensures forall i :: 0 <= i < |authors| ==> FirstAffiliationOf(authors[i], mapping).Ok?
    decreases |authors|
  {
    if authors != [] {
      var rest := authors[1..];
      FirstAffiliationsOnlyIfAll(rest, mapping, acc + [FirstAffiliationOf(authors[0], mapping).value]);
      assert forall i :: 1 <= i < |authors| ==> rest[i - 1] == authors[i];
    }
  }

  /** When every author's first affiliation resolves, the loop lists them
      in order after `acc`. */
  lemma {:induction false} FirstAffiliationsValues(authors: seq<Dict<Scalar>>, mapping: Dict<string>, acc: seq<string>)
    requires forall i :: 0 <= i < |authors| ==> FirstAffiliationOf(authors[i], mapping).Ok?
    ensures FirstAffiliationsFrom(authors, mapping, acc) == Ok(acc + FirstAffiliationNames(authors, mapping))
    decreases |authors|
  {
    if authors == [] {
      assert acc + [] == acc;
    } else {
      var first := FirstAffiliationOf(authors[0], mapping).value;
      FirstAffiliationNamesCons(authors, mapping);
      FirstAffiliationsValues(authors[1..], mapping, acc + [first]);
      AppendAssoc(acc, [first], FirstAffiliationNames(authors[1..], mapping));
    }
  }

  lemma FirstAffiliationNamesCons(authors: seq<Dict<Scalar>>, mapping: Dict<string>)
    requires authors != [] && forall i :: 0 <= i < |authors| ==> FirstAffiliationOf(authors[i], mapping).Ok?
    ensures forall i :: 0 <= i < |authors[1..]| ==> FirstAffiliationOf(authors[1..][i], mapping).Ok?
    ensures FirstAffiliationNames(authors, mapping)
            == [FirstAffiliationOf(authors[0], mapping).value] + FirstAffiliationNames(authors[1..], mapping)
  {
    var rest := authors[1..];
    forall i | 0 <= i < |rest|
      ensures FirstAffiliationOf(rest[i], mapping).Ok?
    {
      assert rest[i] == authors[i + 1];
    }
    var whole := FirstAffiliationNames(authors, mapping);
    var tail := FirstAffiliationNames(rest, mapping);
    var cons := [FirstAffiliationOf(authors[0], mapping).value] + tail;
    forall i | 0 <= i < |whole|
      ensures whole[i] == cons[i]
    {
      if i > 0 {
        assert rest[i - 1] == authors[i];
      }
    }
  }

  /** The loop succeeds exactly when every author's first affiliation
      resolves, and then lists them in order. */
  lemma FirstAffiliationsSucceed(authors: seq<Dict<Scalar>>, mapping: Dict<string>, acc: seq<string>)
    ensures FirstAffiliationsFrom(authors, mapping, acc).Ok?
            <==> forall i :: 0 <= i < |authors| ==> FirstAffiliationOf(authors[i], mapping).Ok?
    ensures FirstAffiliationsFrom(authors, mapping, acc).Ok?
            ==> FirstAffiliationsFrom(authors, mapping, acc).value == acc + FirstAffiliationNames(authors, mapping)
  {
    if FirstAffiliationsFrom(authors, mapping, acc).Ok? {
      FirstAffiliationsOnlyIfAll(authors, mapping, acc);
    }
    if forall i :: 0 <= i < |authors| ==> FirstAffiliationOf(authors[i], mapping).Ok? {
      FirstAffiliationsValues(authors, mapping, acc);
    }
  }

  /** Otherwise it raises what the first unresolvable author raises. */
  lemma {:induction false} FirstAffiliationsFail(authors: seq<Dict<Scalar>>, mapping: Dict<string>, acc: seq<string>,
                                                 k: nat)
    requires k < |authors| && FirstAffiliationOf(authors[k], mapping).Err?
    requires forall j :: 0 <= j < k ==> FirstAffiliationOf(authors[j], mapping).Ok?
    ensures FirstAffiliationsFrom(authors, mapping, acc) == Err(FirstAffiliationOf(authors[k], mapping).error)
    decreases k
  {
    if k > 0 {
      var rest := authors[1..];
      assert FirstAffiliationOf(authors[0], mapping).Ok?;
      FirstAffiliationsStep(authors, mapping, acc);
      forall j | 0 <= j < k - 1
        ensures FirstAffiliationOf(rest[j], mapping).Ok?
      {
        assert rest[j] == authors[j + 1];
      }
      assert rest[k - 1] == authors[k];
      FirstAffiliationsFail(rest, mapping, acc + [FirstAffiliationOf(authors[0], mapping).value], k - 1);
    } else {
      FirstAffiliationsStop(authors, mapping, acc);
    }
  }

  /** One author of the first loop whose affiliation resolves. */
  lemma FirstAffiliationsStep(authors: seq<Dict<Scalar>>, mapping: Dict<string>, acc: seq<string>)
    requires authors != [] && FirstAffiliationOf(authors[0], mapping).Ok?
    ensures FirstAffiliationsFrom(authors, mapping, acc) ==
            FirstAffiliationsFrom(authors[1..], mapping, acc + [FirstAffiliationOf(authors[0], mapping).value])
  {
  }

  /** An author of the first loop whose affiliation raises ends it. */
  lemma FirstAffiliationsStop(authors: seq<Dict<Scalar>>, mapping: Dict<string>, acc: seq<string>)
    requires authors != [] && FirstAffiliationOf(authors[0], mapping).Err?
    ensures FirstAffiliationsFrom(authors, mapping, acc) == Err(FirstAffiliationOf(authors[0], mapping).error)
  {
  }

  /** The first loop of zenodo_create_buckets_task. */
  method FirstAffiliations(authors: seq<Dict<Scalar>>, mapping: Dict<string>) returns (r: Result<seq<string>>)
    ensures r == FirstAffiliationsFrom(authors, mapping, [])
  {
    var firsts: seq<string> := [];
    for i := 0 to |authors|
      invariant FirstAffiliationsFrom(authors[i..], mapping, firsts) == FirstAffiliationsFrom(authors, mapping, [])
    {
      assert authors[i..][1..] == authors[i + 1..];
      var key := FirstIndexKey(authors[i]);
      if key.Err? {
        return Err(key.error);
      }
      var name := Get(mapping, key.value);
      if name.None? {
        return Err(Raised("KeyError"));
      }
      firsts := firsts + [name.value];
    }
    assert authors[|authors|..] == [];
    r := Ok(firsts);
  }

  /** The second loop: every author's `affiliation` becomes the name of its
      first affiliation. */
  function WithAffiliations(authors: seq<Dict<Scalar>>, firsts: seq<string>): (r: seq<Dict<Scalar>>)
    requires |firsts| == |authors|
    ensures |r| == |authors|
    ensures forall i :: 0 <= i < |authors| ==> Get(r[i], "affiliation") == Some(SStr(firsts[i]))
    ensures forall i, k :: 0 <= i < |authors| && k != "affiliation" ==> Get(r[i], k) == Get(authors[i], k)
    ensures forall i :: 0 <= i < |authors| && DistinctKeys(authors[i]) ==> DistinctKeys(r[i])
  {
    seq(|authors|, i requires 0 <= i < |authors| => Put(authors[i], "affiliation", SStr(firsts[i])))
  }

  method AssignAffiliations(authors: seq<Dict<Scalar>>, firsts: seq<string>) returns (r: seq<Dict<Scalar>>)
    requires |firsts| == |authors|
    ensures r == WithAffiliations(authors, firsts)
  {
    r := authors;
    for ii := 0 to |authors|
      invariant |r| == |authors|
      invariant forall j :: 0 <= j < ii ==> r[j] == Put(authors[j], "affiliation", SStr(firsts[j]))
      invariant forall j :: ii <= j < |authors| ==> r[j] == authors[j]
    {
      r := r[ii := Put(r[ii], "affiliation", SStr(firsts[ii]))];
    }
  }

  // ---------------------------------------------------------------------
  // Field names
  // ---------------------------------------------------------------------

  const ValidFieldNames: set<string> := {"name", "orcid", "affiliation"}

  /** Whether `field` stands for the valid name: it holds the name in any
      letter case, or it is `orchid`. */
  predicate Misspells(validName: string, field: string) {
    Contains(Lower(field), Lower(validName)) || (validName == "orcid" && Lower(field) == "orchid")
  }

  /** A field stands for a valid name whenever its lower-cased text holds the
      lower-cased name, in particular when it is the name in another case. */
  lemma MisspellsAnyCase(validName: string, field: string)
    ensures Contains(Lower(field), Lower(validName)) ==> Misspells(validName, field)
    ensures Lower(field) == Lower(validName) ==> Misspells(validName, field)
  {
    ContainsInfix([], Lower(field), []);
    assert [] + Lower(field) + [] == Lower(field);
  }

  /** The valid name an invalid field is renamed to: the first, in the
      set's iteration order `order`, that it stands for. */
  function RenameTarget(field: string, order: seq<string>): (r: Option<string>)
    ensures r.Some? ==> r.value in order && Misspells(r.value, field)
    ensures r.None? ==> forall i :: 0 <= i < |order| ==> !Misspells(order[i], field)
    ensures r.Some? ==> exists i :: 0 <= i < |order| && order[i] == r.value
                                    && forall j :: 0 <= j < i ==> !Misspells(order[j], field)
  {
    if order == [] then None
    else if Misspells(order[0], field) then Some(order[0])
    else
      var r := RenameTarget(field, order[1..]);
      assert forall j :: 1 <= j < |order| ==> order[1..][j - 1] == order[j];
      if r.Some? then
        assert exists i :: 0 <= i < |order| && order[i] == r.value
                           && forall j :: 0 <= j < i ==> !Misspells(order[j], field) by {
          var i :| 0 <= i < |order[1..]| && order[1..][i] == r.value
                   && forall j :: 0 <= j < i ==> !Misspells(order[1..][j], field);
          assert order[i + 1] == r.value;
        }
        r
      else r
  }

  /** The loop over valid names with its `break`. */
  method FindRenameTarget(field: string, order: seq<string>) returns (r: Option<string>)
    ensures r == RenameTarget(field, order)
  {
    r := None;
    var i := 0;
    while i < |order|
      invariant 0 <= i <= |order|
      invariant RenameTarget(field, order[i..]) == RenameTarget(field, order)
    {
      assert order[i..][1..] == order[i + 1..];
      if Misspells(order[i], field) {
        r := Some(order[i]);
        break;
      }
      i := i + 1;
    }
    if i == |order| {
      assert order[i..] == [];
    }
  }

  /** The fields of an author that are not valid names, in the dict's
      order. */
  function InvalidFields(author: Dict<Scalar>): seq<string>
    decreases |author|
  {
    if author == [] then []
    else (if author[0].0 in ValidFieldNames then [] else [author[0].0]) + InvalidFields(author[1..])
  }

  /** They are exactly the keys that are not valid names, each once. */
  lemma {:induction false} InvalidFieldsSpec(author: Dict<Scalar>)
    requires DistinctKeys(author)
    ensures var r := InvalidFields(author);
            && (forall f :: f in r <==> HasKey(author, f) && f !in ValidFieldNames)
            && (forall i, j :: 0 <= i < j < |r| ==> r[i] != r[j])
    decreases |author|
  {
    if author != [] {
      InvalidFieldsSpec(author[1..]);
      assert Keys(author) == [author[0].0] + Keys(author[1..]);
    }
  }

  lemma InvalidFieldsStep(author: Dict<Scalar>, i: nat)
    requires i < |author|
    ensures InvalidFields(author[i..])
            == (if author[i].0 in ValidFieldNames then [] else [author[i].0]) + InvalidFields(author[i + 1..])
  {
    assert author[i..][1..] == author[i + 1..];
  }

  method CollectInvalidFields(author: Dict<Scalar>) returns (fields: seq<string>)
    ensures fields == InvalidFields(author)
  {
    fields := [];
    for i := 0 to |author|
      invariant fields + InvalidFields(author[i..]) == InvalidFields(author)
    {
      InvalidFieldsStep(author, i);
      if author[i].0 !in ValidFieldNames {
        fields := fields + [author[i].0];
      }
    }
    assert author[|author|..] == [];
  }

  /** `author[valid] = author.pop(field)` for each field, in order, that
      stands for a valid name; `pop` of a missing field raises KeyError. */
  function RenameFrom(author: Dict<Scalar>, fields: seq<string>, order: seq<string>): (r: Result<Dict<Scalar>>)
    requires DistinctKeys(author)
    ensures r.Ok? ==> DistinctKeys(r.value)
    decreases |fields|
  {
    if fields == [] then Ok(author)
    else
      match RenameTarget(fields[0], order)
      case None => RenameFrom(author, fields[1..], order)
      case Some(v) =>
        match Get(author, fields[0])
        case None => Err(Raised("KeyError"))
        case Some(x) => RenameFrom(Put(Remove(author, fields[0]), v, x), fields[1..], order)
  }

  /** The last of `fields` that is renamed to `k`. */
  function LastTargeting(fields: seq<string>, order: seq<string>, k: string): (r: Option<string>)
    ensures r.Some? ==> r.value in fields && RenameTarget(r.value, order) == Some(k)
    decreases |fields|
  {
    if fields == [] then None
    else
      match LastTargeting(fields[1..], order, k)
      case Some(f) => Some(f)
      case None => if RenameTarget(fields[0], order) == Some(k) then Some(fields[0]) else None
  }

  /** The renaming never raises on the author's own invalid fields: a
      renamed field loses its key, and a valid name ends up with the value of
      the last field renamed to it, or keeps its own. */
  lemma {:induction false} RenameFromKey(author: Dict<Scalar>, fields: seq<string>, order: seq<string>, k: string)
    requires DistinctKeys(author)
    requires forall i :: 0 <= i < |fields| ==> HasKey(author, fields[i]) && fields[i] !in ValidFieldNames
    requires forall i, j :: 0 <= i < j < |fields| ==> fields[i] != fields[j]
    requires forall i :: 0 <= i < |order| ==> order[i] in ValidFieldNames
    ensures RenameFrom(author, fields, order).Ok?
    ensures Get(RenameFrom(author, fields, order).value, k)
            == if k in fields && RenameTarget(k, order).Some? then None
               else match LastTargeting(fields, order, k)
                    case None => Get(author, k)
                    case Some(f) => Get(author, f)
    decreases |fields|
  {
    if fields != [] {
      var f := fields[0];
      var rest := fields[1..];
      assert forall i :: 0 <= i < |rest| ==> rest[i] == fields[i + 1];
      assert f !in rest;
      var t := RenameTarget(f, order);
      if t.None? {
        RenameFromKey(author, rest, order, k);
      } else {
        var v := t.value;
        assert v in ValidFieldNames;
        var x := Get(author, f).value;
        var author' := Put(Remove(author, f), v, x);
        forall i | 0 <= i < |rest| ensures HasKey(author', rest[i]) {
          assert rest[i] != f && rest[i] != v;
          assert Get(author', rest[i]) == Get(author, rest[i]);
        }
        RenameFromKey(author', rest, order, k);
        var g := LastTargeting(rest, order, k);
        if g.Some? {
          assert g.value != f && g.value != v;
          assert Get(author', g.value) == Get(author, g.value);
        } else if k == f {
          assert Get(author', k).None?;
        }
      }
    }
  }

  /** `if author.get('orcid') is None: author.pop('orcid')`: a None ORCID
      is dropped, and a missing one makes `pop` raise KeyError. */
  function DropNullOrcid(author: Dict<Scalar>): (r: Result<Dict<Scalar>>)
    requires DistinctKeys(author)
    ensures r.Ok? <==> Get(author, "orcid").Some?
    ensures r.Err? ==> r.error == Raised("KeyError")
    ensures r.Ok? ==> DistinctKeys(r.value) && Get(r.value, "orcid") != Some(SNull)
    ensures r.Ok? ==> Get(r.value, "orcid") == (if Get(author, "orcid") == Some(SNull) then None else Get(author, "orcid"))
    ensures r.Ok? ==> forall k :: k != "orcid" ==> Get(r.value, k) == Get(author, k)
  {
    var o: Option<Scalar> := Get(author, "orcid");
    match o
    case None => Err(Raised("KeyError"))
    case Some(SNull) => Ok(Remove(author, "orcid"))
    case Some(_) => Ok(author)
  }

  /** The field normalisation of one author. */
  function NormaliseAuthor(author: Dict<Scalar>, order: seq<string>): (r: Result<Dict<Scalar>>)
    requires DistinctKeys(author)
  {
    match RenameFrom(author, InvalidFields(author), order)
    case Err(e) => Err(e)
    case Ok(a) => DropNullOrcid(a)
  }

  /** The value a key holds after the renaming, in terms of the author as
      given. */
  function RenamedGet(author: Dict<Scalar>, order: seq<string>, k: string): Option<Scalar> {
    var fields := InvalidFields(author);
    if k in fields && RenameTarget(k, order).Some? then None
    else match LastTargeting(fields, order, k)
         case None => Get(author, k)
         case Some(f) => Get(author, f)
  }

  lemma RenameOwnFields(author: Dict<Scalar>, order: seq<string>, k: string)
    requires DistinctKeys(author)
    requires forall i :: 0 <= i < |order| ==> order[i] in ValidFieldNames
    ensures RenameFrom(author, InvalidFields(author), order).Ok?
    ensures Get(RenameFrom(author, InvalidFields(author), order).value, k) == RenamedGet(author, order, k)
  {
    InvalidFieldsSpec(author);
    RenameFromKey(author, InvalidFields(author), order, k);
  }

  /** Normalising an author fails (with KeyError) exactly when no ORCID is
      left after the renaming; otherwise every key holds its renamed value,
      except a None ORCID, which is dropped. */
  lemma NormaliseAuthorSpec(author: Dict<Scalar>, order: seq<string>, k: string)
    requires DistinctKeys(author)
    requires forall i :: 0 <= i < |order| ==> order[i] in ValidFieldNames
    ensures var r := NormaliseAuthor(author, order);
            && (r.Ok? <==> RenamedGet(author, order, "orcid").Some?)
            && (r.Err? ==> r.error == Raised("KeyError"))
            && (r.Ok? ==> Get(r.value, "orcid") != Some(SNull)
                          && Get(r.value, k) == if k == "orcid" && RenamedGet(author, order, k) == Some(SNull) then None
                                                else RenamedGet(author, order, k))
  {
    RenameOwnFields(author, order, k);
    RenameOwnFields(author, order, "orcid");
  }

  /** After normalisation no key is left that stands for a valid name
      without being one: every remaining key is valid, or matches none of
      them. */
  lemma NoMisspelledFieldRemains(author: Dict<Scalar>, order: seq<string>, k: string)
    requires DistinctKeys(author)
    requires forall i :: 0 <= i < |order| ==> order[i] in ValidFieldNames
    requires NormaliseAuthor(author, order).Ok? && HasKey(NormaliseAuthor(author, order).value, k)
    ensures k in ValidFieldNames || RenameTarget(k, order).None?
  {
    NormaliseAuthorSpec(author, order, k);
    InvalidFieldsSpec(author);
    if k !in ValidFieldNames {
      var fields := InvalidFields(author);
      var g := LastTargeting(fields, order, k);
      assert g.None?;
      assert HasKey(author, k);
    }
  }

  /** The normalisation loop of zenodo_create_buckets_task for one author:
      collect the invalid fields, rename each, then drop a None ORCID. */
  method NormaliseFields(author: Dict<Scalar>, order: seq<string>) returns (r: Result<Dict<Scalar>>)
    requires DistinctKeys(author)
    ensures r == NormaliseAuthor(author, order)
  {
    var invalid := CollectInvalidFields(author);
    var a := author;
    for i := 0 to |invalid|
      invariant DistinctKeys(a)
      invariant RenameFrom(a, invalid[i..], order) == RenameFrom(author, invalid, order)
    {
      assert invalid[i..][1..] == invalid[i + 1..];
      var target := FindRenameTarget(invalid[i], order);
      if target.Some? {
        var x := Get(a, invalid[i]);
        if x.None? {
          return Err(Raised("KeyError"));
        }
        a := Put(Remove(a, invalid[i]), target.value, x.value);
      }
    }
    assert invalid[|invalid|..] == [];
    var o := Get(a, "orcid");
    if o.None? {
      return Err(Raised("KeyError"));
    }
    if o.value.SNull? {
      a := Remove(a, "orcid");
    }
    r := Ok(a);
  }

  /** The normalisation loop over all authors, from `acc` on. */
  function NormaliseAllFrom(authors: seq<Dict<Scalar>>, order: seq<string>, acc: seq<Dict<Scalar>>): Result<seq<Dict<Scalar>>>
    requires forall i :: 0 <= i < |authors| ==> DistinctKeys(authors[i])
    decreases |authors|
  {
    if authors == [] then Ok(acc)
    else
      match NormaliseAuthor(authors[0], order)
      case Err(e) => Err(e)
      case Ok(a) => NormaliseAllFrom(authors[1..], order, acc + [a])
  }

  /** Every author normalised, in order. */
  function NormalisedAuthors(authors: seq<Dict<Scalar>>, order: seq<string>): (r: seq<Dict<Scalar>>)
    requires forall i :: 0 <= i < |authors| ==> DistinctKeys(authors[i])
    requires forall i :: 0 <= i < |authors| ==> NormaliseAuthor(authors[i], order).Ok?
    ensures |r| == |authors|
  {
    seq(|authors|, i requires 0 <= i < |authors| => NormaliseAuthor(authors[i], order).value)
  }

  /** Normalising the list succeeds only when every author has an ORCID
      left. */
  lemma {:induction false} NormaliseAllOnlyIfAll(authors: seq<Dict<Scalar>>, order: seq<string>, acc: seq<Dict<Scalar>>)
    requires forall i :: 0 <= i < |authors| ==> DistinctKeys(authors[i])
    requires NormaliseAllFrom(authors, order, acc).Ok?
    ensures forall i :: 0 <= i < |authors| ==> NormaliseAuthor(authors[i], order).Ok?
    decreases |authors|
  {
    if authors != [] {
      var rest := authors[1..];
      assert forall i :: 1 <= i < |authors| ==> rest[i - 1] == authors[i];
      NormaliseAllOnlyIfAll(rest, order, acc + [NormaliseAuthor(authors[0], order).value]);
    }
  }

  /** When every author normalises, the loop lists them in order after
      `acc`. */
  lemma {:induction false} NormaliseAllValues(authors: seq<Dict<Scalar>>, order: seq<string>, acc: seq<Dict<Scalar>>)
    requires forall i :: 0 <= i < |authors| ==> DistinctKeys(authors[i])
    requires forall i :: 0 <= i < |authors| ==> NormaliseAuthor(authors[i], order).Ok?
    ensures NormaliseAllFrom(authors, order, acc) == Ok(acc + NormalisedAuthors(authors, order))
    decreases |authors|
  {
    if authors == [] {
      assert acc + [] == acc;
    } else {
      var first := NormaliseAuthor(authors[0], order).value;
      NormalisedAuthorsCons(authors, order);
      NormaliseAllValues(authors[1..], order, acc + [first]);
      AppendAssoc(acc, [first], NormalisedAuthors(authors[1..], order));
    }
  }

  lemma NormalisedAuthorsCons(authors: seq<Dict<Scalar>>, order: seq<string>)
    requires authors != [] && forall i :: 0 <= i < |authors| ==> DistinctKeys(authors[i])
    requires forall i :: 0 <= i < |authors| ==> NormaliseAuthor(authors[i], order).Ok?
    ensures forall i :: 0 <= i < |authors[1..]| ==> DistinctKeys(authors[1..][i])
    ensures forall i :: 0 <= i < |authors[1..]| ==> NormaliseAuthor(authors[1..][i], order).Ok?
    ensures NormalisedAuthors(authors, order)
            == [NormaliseAuthor(authors[0], order).value] + NormalisedAuthors(authors[1..], order)
  {
    var rest := authors[1..];
    forall i | 0 <= i < |rest|
      ensures DistinctKeys(rest[i]) && NormaliseAuthor(rest[i], order).Ok?
    {
      assert rest[i] == authors[i + 1];
    }
    var whole := NormalisedAuthors(authors, order);
    var tail := NormalisedAuthors(rest, order);
    var cons := [NormaliseAuthor(authors[0], order).value] + tail;
    forall i | 0 <= i < |whole|
      ensures whole[i] == cons[i]
    {
      if i > 0 {
        assert rest[i - 1] == authors[i];
      }
    }
  }

  /** Normalising the author list fails exactly when one author has no
      ORCID left; otherwise it normalises each author in place. */
  lemma NormaliseAllSpec(authors: seq<Dict<Scalar>>, order: seq<string>, acc: seq<Dict<Scalar>>)
    requires forall i :: 0 <= i < |authors| ==> DistinctKeys(authors[i])
    ensures NormaliseAllFrom(authors, order, acc).Ok?
            <==> forall i :: 0 <= i < |authors| ==> NormaliseAuthor(authors[i], order).Ok?
    ensures NormaliseAllFrom(authors, order, acc).Ok?
            ==> NormaliseAllFrom(authors, order, acc).value == acc + NormalisedAuthors(authors, order)
  {
    if NormaliseAllFrom(authors, order, acc).Ok? {
      NormaliseAllOnlyIfAll(authors, order, acc);
    }
    if forall i :: 0 <= i < |authors| ==> NormaliseAuthor(authors[i], order).Ok? {
      NormaliseAllValues(authors, order, acc);
    }
  }

  // ---------------------------------------------------------------------
  // zenodo_create_buckets_task
  // ---------------------------------------------------------------------

  /** The paper data of the payload. */
  datatype PaperData = PaperData(title: string, authors: seq<Dict<Scalar>>, affiliations: seq<Affiliation>)

  /** The fields of the payload the task reads (the issue number is the
      deposit directory's). */
  datatype BucketsPayload = BucketsPayload(repositoryUrl: string, archiveAssets: seq<string>, paper: PaperData)

  /** What one bucket creation sees: the `git ls-remote` listings of the
      author's repository and of the fork, and Zenodo's reply (None when it
      is an error status). */
  datatype CreateCall = CreateCall(lsUser: string, lsFork: string, response: Option<Bucket>)

  /** The notifications of the task. */
  datatype Notice =
    | Started
    | RecordsExist(fileName: string)
    | Creating(archiveType: string)
    | CreationFailed(collect: Dict<Bucket>)
    | Created(collect: Dict<Bucket>)

  /** What a run of the task did: the exception it ended with, its
      notifications, the assets it asked Zenodo to create, the replies to
      those requests, the links it asked Zenodo to delete, and `collect` as
      it stands at the end. */
  datatype BucketsRun = BucketsRun(error: Option<Error>, notices: seq<Notice>, requested: seq<string>,
                                   created: Dict<Bucket>, deleted: seq<string>, collect: Dict<Bucket>)

  /** The deposit record's file name. */
  function DepositFileName(issueId: nat): string {
    "zenodo_deposit_NeuroLibre_" + Pad5(issueId) + ".json"
  }

  /** `'reason' in v`: a key of a reply dict, a substring of a delete
      reply's text. */
  predicate HasReason(b: Bucket) {
    match b
    case Refused(_, _, _) => true
    case Deposited(_, _, _) => false
    case DeleteReply(text) => Contains(text, "reason")
  }

  /** Whether any collected reply carries a reason. */
  predicate AnyReason(collect: Dict<Bucket>) {
    exists i :: 0 <= i < |collect| && HasReason(collect[i].1)
  }

  /** `{k: v for k, v in collect.items() if not 'reason' in v}` */
  function WithoutReason(collect: Dict<Bucket>): (r: Dict<Bucket>)
    ensures forall e :: e in r <==> e in collect && !HasReason(e.1)
    ensures |r| <= |collect|
    decreases |collect|
  {
    if collect == [] then []
    else (if HasReason(collect[0].1) then [] else [collect[0]]) + WithoutReason(collect[1..])
  }

  /** The authors as the task hands them to Zenodo: first affiliations
      resolved, then every author's fields normalised. */
  function PreparedAuthors(paper: PaperData, order: seq<string>): Result<seq<Dict<Scalar>>>
    requires forall i :: 0 <= i < |paper.authors| ==> DistinctKeys(paper.authors[i])
  {
    match FirstAffiliationsFrom(paper.authors, AffiliationMapping(paper.affiliations), [])
    case Err(e) => Err(e)
    case Ok(firsts) =>
      FirstAffiliationsSucceed(paper.authors, AffiliationMapping(paper.affiliations), []);
      NormaliseAllFrom(WithAffiliations(paper.authors, firsts), order, [])
  }

  /** Zenodo's answer to the request for one asset, as `collect` stores
      it, or the exception the request raises. */
  function CreateReply(title: string, asset: string, creators: seq<Dict<Scalar>>, repositoryUrl: string,
                       issueId: nat, c: CreateCall): Result<Bucket>
  {
    match CreateBucket(title, asset, creators, repositoryUrl, issueId, c.lsUser, c.lsFork, c.response)
    case Err(e) => Err(e)
    case Ok(req) => Ok(req.reply)
  }

  /** The answers to the requests for all the assets, the i-th seeing
      `calls(i)`; the task makes them in order and stops at the first that
      raises. */
  function Replies(p: BucketsPayload, creators: seq<Dict<Scalar>>, issueId: nat, calls: nat -> CreateCall)
    : (r: seq<Result<Bucket>>)
    ensures |r| == |p.archiveAssets|
  {
    seq(|p.archiveAssets|, i requires 0 <= i < |p.archiveAssets| =>
      CreateReply(p.paper.title, p.archiveAssets[i], creators, p.repositoryUrl, issueId, calls(i)))
  }

  /** The creation loop, from asset `i` on: one request per asset, in
      order, each reply stored under its asset (a repeated asset keeps the
      last reply); a request that raises ends the loop. */
  function CollectFrom(assets: seq<string>, replies: seq<Result<Bucket>>, i: nat,
                       collect: Dict<Bucket>, requested: seq<string>): (res: (Option<Error>, Dict<Bucket>, seq<string>))
    requires i <= |assets| == |replies|
    ensures res.0.None? <==> FirstRaise(replies, i) == |assets|
    ensures res.0.Some? ==> replies[FirstRaise(replies, i)] == Err(res.0.value)
    ensures |requested| <= |res.2| <= |requested| + |assets| - i
    decreases |assets| - i
  {
    if i == |assets| then (None, collect, requested)
    else
      var requested' := requested + [assets[i]];
      match replies[i]
      case Err(e) => (Some(e), collect, requested')
      case Ok(reply) => CollectFrom(assets, replies, i + 1, Put(collect, assets[i], reply), requested')
  }

  /** `key + "_deleted"` */
  function DeletedKey(key: string): string {
    key + "_deleted"
  }

  /** The rollback loop, from `j` on: delete every deposit without a
      reason through its `self` link and record the reply under
      `{key}_deleted`. A reply without links (a text) raises TypeError. */
  function RollbackFrom(remove: Dict<Bucket>, j: nat, deletes: nat -> string, collect: Dict<Bucket>,
                        deleted: seq<string>): (res: (Option<Error>, Dict<Bucket>, seq<string>))
    requires j <= |remove|
    ensures res.0.None? <==> forall k :: j <= k < |remove| ==> remove[k].1.Deposited?
    ensures res.0.Some? ==> res.0.value == Raised("TypeError")
    ensures |deleted| <= |res.2| <= |deleted| + |remove| - j && res.2[..|deleted|] == deleted
    decreases |remove| - j
  {
    if j == |remove| then (None, collect, deleted)
    else if remove[j].1.Deposited? then
      var rest := RollbackFrom(remove, j + 1, deletes, Put(collect, DeletedKey(remove[j].0), DeleteReply(deletes(j))),
                               deleted + [remove[j].1.selfLink]);
      assert rest.2[..|deleted|] == (deleted + [remove[j].1.selfLink])[..|deleted| + 1][..|deleted|];
      rest
    else (Some(Raised("TypeError")), collect, deleted)
  }

  /** The notifications before any request: the start, and a warning
      when a record already exists. */
  function Opening(existing: Option<Dict<Bucket>>, issueId: nat): (r: seq<Notice>)
    ensures r != [] && r[0] == Started
  {
    [Started] + (if existing.Some? then [RecordsExist(DepositFileName(issueId))] else [])
  }

  /** The task once the authors are prepared, given Zenodo's answer to the
      request for each asset: its run without the opening notifications,
      and the record it writes, if any. The record is written only when no
      reply carries a reason; otherwise the deposits without a reason are
      deleted again. */
  function Requests(assets: seq<string>, replies: seq<Result<Bucket>>, deletes: nat -> string)
    : (res: (BucketsRun, Option<Dict<Bucket>>))
    requires |replies| == |assets|
    ensures res.1.Some? ==> res.0.error.None? && res.1 == Some(res.0.created)
  {
    var (err, collect, requested) := CollectFrom(assets, replies, 0, [], []);
    var creating := CreatingNotices(requested);
    if err.Some? then (BucketsRun(err, creating, requested, collect, [], collect), None)
    else if AnyReason(collect) then
      var (err', collect', deleted) := RollbackFrom(WithoutReason(collect), 0, deletes, collect, []);
      if err'.Some? then (BucketsRun(err', creating, requested, collect, deleted, collect'), None)
      else (BucketsRun(None, creating + [CreationFailed(collect')], requested, collect, deleted, collect'), None)
    else (BucketsRun(None, creating + [Created(collect)], requested, collect, [], collect), Some(collect))
  }

  /** The same with the opening notifications, over the existing record. */
  function BucketsOutcome(existing: Option<Dict<Bucket>>, issueId: nat, assets: seq<string>,
                          replies: seq<Result<Bucket>>, deletes: nat -> string): (res: (BucketsRun, Option<Dict<Bucket>>))
    requires |replies| == |assets|
    ensures |Opening(existing, issueId)| <= |res.0.notices|
    ensures res.0.notices[..|Opening(existing, issueId)|] == Opening(existing, issueId)
    ensures res.1 != existing ==> res.0.error.None? && res.1 == Some(res.0.created)
  {
    var (run, written) := Requests(assets, replies, deletes);
    (run.(notices := Opening(existing, issueId) + run.notices), if written.Some? then written else existing)
  }

  /** zenodo_create_buckets_task as a value: its run and the deposit record
      after it. Preparing the authors may raise before any request. */
  function CreateBucketsOf(existing: Option<Dict<Bucket>>, issueId: nat, p: BucketsPayload, order: seq<string>,
                           calls: nat -> CreateCall, deletes: nat -> string): (res: (BucketsRun, Option<Dict<Bucket>>))
    requires forall i :: 0 <= i < |p.paper.authors| ==> DistinctKeys(p.paper.authors[i])
    ensures res.0.notices != [] && res.0.notices[0] == Started
    ensures |Opening(existing, issueId)| <= |res.0.notices|
    ensures res.0.notices[..|Opening(existing, issueId)|] == Opening(existing, issueId)
    ensures res.1 != existing ==> res.0.error.None? && res.1 == Some(res.0.created)
  {
    match PreparedAuthors(p.paper, order)
    case Err(e) => (BucketsRun(Some(e), Opening(existing, issueId), [], [], [], []), existing)
    case Ok(creators) => BucketsOutcome(existing, issueId, p.archiveAssets, Replies(p, creators, issueId, calls), deletes)
  }

  function CreatingNotices(assets: seq<string>): (r: seq<Notice>)
    ensures |r| == |assets| && forall i :: 0 <= i < |assets| ==> r[i] == Creating(assets[i])
  {
    seq(|assets|, i requires 0 <= i < |assets| => Creating(assets[i]))
  }

  /** The per-author normalisation loop over the author list. */
  method NormaliseAuthors(authors: seq<Dict<Scalar>>, order: seq<string>) returns (r: Result<seq<Dict<Scalar>>>)
    requires forall i :: 0 <= i < |authors| ==> DistinctKeys(authors[i])
    ensures r == NormaliseAllFrom(authors, order, [])
  {
    var done: seq<Dict<Scalar>> := [];
    for i := 0 to |authors|
      invariant NormaliseAllFrom(authors[i..], order, done) == NormaliseAllFrom(authors, order, [])
    {
      assert authors[i..][1..] == authors[i + 1..];
      var a := NormaliseFields(authors[i], order);
      if a.Err? {
        return Err(a.error);
      }
      done := done + [a.value];
    }
    assert authors[|authors|..] == [];
    r := Ok(done);
  }

  /** Zenodo answers a create request with a deposit or a refusal, never
      with the text of a delete reply. */
  ghost predicate CreateReplies(calls: nat -> CreateCall) {
    forall j: nat :: calls(j).response.Some? ==> !calls(j).response.value.DeleteReply?
  }

  /** No answer to a create request is a delete reply. */
  predicate NoDeleteReply(replies: seq<Result<Bucket>>) {
    forall i :: 0 <= i < |replies| && replies[i].Ok? ==> !replies[i].value.DeleteReply?
  }

  /** Every collected reply answers a create request. */
  predicate OnlyCreateReplies(collect: Dict<Bucket>) {
    forall e :: e in collect ==> !e.1.DeleteReply?
  }

  lemma RepliesFromCreates(p: BucketsPayload, creators: seq<Dict<Scalar>>, issueId: nat, calls: nat -> CreateCall)
    requires CreateReplies(calls)
    ensures NoDeleteReply(Replies(p, creators, issueId, calls))
  {
    var replies := Replies(p, creators, issueId, calls);
    forall i | 0 <= i < |replies| && replies[i].Ok? ensures !replies[i].value.DeleteReply? {
      var c := calls(i);
      var r := CreateBucket(p.paper.title, p.archiveAssets[i], creators, p.repositoryUrl, issueId, c.lsUser, c.lsFork, c.response);
      assert replies[i] == Ok(r.value.reply);
    }
  }

  /** The index of the first request from `i` on that raises, or the
      number of requests when none does. */
  function FirstRaise(replies: seq<Result<Bucket>>, i: nat): (k: nat)
    requires i <= |replies|
    ensures i <= k <= |replies|
    ensures k < |replies| ==> replies[k].Err?
    ensures forall j :: i <= j < k ==> replies[j].Ok?
    decreases |replies| - i
  {
    if i == |replies| || replies[i].Err? then i else FirstRaise(replies, i + 1)
  }

  /** The number of requests the creation loop makes, counted from the
      start: up to and including the first that raises. */
  function RequestedEnd(replies: seq<Result<Bucket>>, i: nat): (end: nat)
    requires i <= |replies|
    ensures i <= end <= |replies|
  {
    var k := FirstRaise(replies, i);
    if k < |replies| then k + 1 else k
  }

  /** The requests the creation loop makes from asset `i` on follow the
      ones already made: one per asset, in order, up to and including the
      first that raises. */
  predicate RequestsMade(assets: seq<string>, replies: seq<Result<Bucket>>, i: nat,
                         collect: Dict<Bucket>, requested: seq<string>)
    requires i <= |assets| == |replies|
  {
    CollectFrom(assets, replies, i, collect, requested).2 == requested + assets[i..RequestedEnd(replies, i)]
  }

  /** The creation loop makes one request per asset, in order, up to and
      including the first that raises. */
  lemma {:induction false} CollectRequests(assets: seq<string>, replies: seq<Result<Bucket>>, i: nat,
                                           collect: Dict<Bucket>, requested: seq<string>)
    requires i <= |assets| == |replies|
    ensures RequestsMade(assets, replies, i, collect, requested)
    decreases |assets| - i, 1
  {
    if i < |assets| && replies[i].Ok? {
      CollectRequestsOn(assets, replies, i, collect, requested);
    } else {
      CollectRequestsStop(assets, replies, i, collect, requested);
    }
  }

  /** CollectRequests at a request that does not raise. */
  lemma {:induction false} CollectRequestsOn(assets: seq<string>, replies: seq<Result<Bucket>>, i: nat,
                                             collect: Dict<Bucket>, requested: seq<string>)
    requires i < |assets| == |replies| && replies[i].Ok?
    ensures RequestsMade(assets, replies, i, collect, requested)
    decreases |assets| - i, 0
  {
    var next := CollectNext(assets, replies, i, collect, requested);
    CollectRequests(assets, replies, i + 1, next, requested + [assets[i]]);
    CollectRequestsStep(assets, replies, i, collect, requested, next);
  }

  /** CollectRequests where the loop stops: past the last asset, or at a
      request that raises. */
  lemma CollectRequestsStop(assets: seq<string>, replies: seq<Result<Bucket>>, i: nat,
                            collect: Dict<Bucket>, requested: seq<string>)
    requires i <= |assets| == |replies| && (i == |assets| || replies[i].Err?)
    ensures RequestsMade(assets, replies, i, collect, requested)
  {
    if i == |assets| {
      assert requested + assets[i..i] == requested;
    } else {
      assert requested + assets[i..i + 1] == requested + [assets[i]];
    }
  }

  /** CollectRequests at a request that does not raise, from the same
      statement one asset further on. */
  lemma CollectRequestsStep(assets: seq<string>, replies: seq<Result<Bucket>>, i: nat,
                            collect: Dict<Bucket>, requested: seq<string>, next: Dict<Bucket>)
    requires i < |assets| == |replies| && replies[i].Ok?
    requires CollectFrom(assets, replies, i, collect, requested)
          == CollectFrom(assets, replies, i + 1, next, requested + [assets[i]])
    requires RequestsMade(assets, replies, i + 1, next, requested + [assets[i]])
    ensures RequestsMade(assets, replies, i, collect, requested)
  {
    assert RequestedEnd(replies, i) == RequestedEnd(replies, i + 1);
    AppendSliceStep(requested, assets, i, RequestedEnd(replies, i));
  }

  /** The record the creation loop carries on past a request that does not
      raise. */
  lemma CollectNext(assets: seq<string>, replies: seq<Result<Bucket>>, i: nat,
                    collect: Dict<Bucket>, requested: seq<string>) returns (next: Dict<Bucket>)
    requires i < |assets| == |replies| && replies[i].Ok?
    ensures CollectFrom(assets, replies, i, collect, requested)
         == CollectFrom(assets, replies, i + 1, next, requested + [assets[i]])
    ensures OnlyCreateReplies(collect) && !replies[i].value.DeleteReply? ==> OnlyCreateReplies(next)
    ensures KeysAdded(next, collect, [assets[i]])
  {
    next := Put(collect, assets[i], replies[i].value);
    if OnlyCreateReplies(collect) && !replies[i].value.DeleteReply? {
      PutCreateReply(collect, assets[i], replies[i].value);
    }
  }

  /** `c` holds the keys of `collect` and those of `keys`, and no other. */
  ghost predicate KeysAdded(c: Dict<Bucket>, collect: Dict<Bucket>, keys: seq<string>) {
    forall key :: HasKey(c, key) <==> HasKey(collect, key) || key in keys
  }

  /** When no request raises, `collect` gains exactly the assets as keys. */
  lemma {:induction false} CollectKeys(assets: seq<string>, replies: seq<Result<Bucket>>, i: nat,
                                       collect: Dict<Bucket>, requested: seq<string>)
    requires i <= |assets| == |replies|
    ensures var res := CollectFrom(assets, replies, i, collect, requested);
            res.0.None? ==> KeysAdded(res.1, collect, assets[i..])
    decreases |assets| - i, 1
  {
    if i < |assets| && replies[i].Ok? {
      CollectKeysOn(assets, replies, i, collect, requested);
    }
  }

  /** CollectKeys at a request that does not raise. */
  lemma {:induction false} CollectKeysOn(assets: seq<string>, replies: seq<Result<Bucket>>, i: nat,
                                         collect: Dict<Bucket>, requested: seq<string>)
    requires i < |assets| == |replies| && replies[i].Ok?
    ensures var res := CollectFrom(assets, replies, i, collect, requested);
            res.0.None? ==> KeysAdded(res.1, collect, assets[i..])
    decreases |assets| - i, 0
  {
    var next := CollectNext(assets, replies, i, collect, requested);
    CollectKeys(assets, replies, i + 1, next, requested + [assets[i]]);
    var res := CollectFrom(assets, replies, i + 1, next, requested + [assets[i]]);
    if res.0.None? {
      KeysStep(res.1, next, collect, assets, i);
    }
  }

  /** Adding `assets[i]` and then the keys from `i + 1` on adds the keys
      from `i` on. */
  lemma KeysStep(c: Dict<Bucket>, next: Dict<Bucket>, collect: Dict<Bucket>, assets: seq<string>, i: nat)
    requires i < |assets|
    requires KeysAdded(next, collect, [assets[i]]) && KeysAdded(c, next, assets[i + 1..])
    ensures KeysAdded(c, collect, assets[i..])
  {
    assert assets[i..] == [assets[i]] + assets[i + 1..];
  }

  lemma PutCreateReply(collect: Dict<Bucket>, key: string, reply: Bucket)
    requires OnlyCreateReplies(collect) && !reply.DeleteReply?
    ensures OnlyCreateReplies(Put(collect, key, reply))
  {
    forall e | e in Put(collect, key, reply) ensures !e.1.DeleteReply? {
      assert e in collect || e == (key, reply);
    }
  }

  /** One step of the creation loop on a request that does not raise. */
  lemma CollectStep(assets: seq<string>, replies: seq<Result<Bucket>>, i: nat,
                    collect: Dict<Bucket>, requested: seq<string>)
    requires i < |assets| == |replies| && replies[i].Ok?
    ensures CollectFrom(assets, replies, i, collect, requested)
         == CollectFrom(assets, replies, i + 1, Put(collect, assets[i], replies[i].value), requested + [assets[i]])
  {
  }

  /** The creation loop collects only replies to create requests. */
  lemma {:induction false} CollectReplies(assets: seq<string>, replies: seq<Result<Bucket>>, i: nat,
                                          collect: Dict<Bucket>, requested: seq<string>)
    requires i <= |assets| == |replies|
    requires NoDeleteReply(replies) && OnlyCreateReplies(collect)
    ensures OnlyCreateReplies(CollectFrom(assets, replies, i, collect, requested).1)
    decreases |assets| - i, 1
  {
    if i < |assets| && replies[i].Ok? {
      CollectRepliesOn(assets, replies, i, collect, requested);
    }
  }

  /** CollectReplies at a request that does not raise. */
  lemma {:induction false} CollectRepliesOn(assets: seq<string>, replies: seq<Result<Bucket>>, i: nat,
                                            collect: Dict<Bucket>, requested: seq<string>)
    requires i < |assets| == |replies| && replies[i].Ok?
    requires NoDeleteReply(replies) && OnlyCreateReplies(collect)
    ensures OnlyCreateReplies(CollectFrom(assets, replies, i, collect, requested).1)
    decreases |assets| - i, 0
  {
    var next := CollectNext(assets, replies, i, collect, requested);
    CollectReplies(assets, replies, i + 1, next, requested + [assets[i]]);
  }

  /** The `self` links of deposits, in order. */
  function SelfLinks(entries: Dict<Bucket>): (r: seq<string>)
    requires forall e :: e in entries ==> e.1.Deposited?
    ensures |r| == |entries| && forall t :: 0 <= t < |entries| ==> r[t] == entries[t].1.selfLink
  {
    if entries == [] then [] else [entries[0].1.selfLink] + SelfLinks(entries[1..])
  }

  /** The rollback raises nothing and deletes every entry of `remove`
      through its `self` link, in order, when every entry is a deposit. */
  lemma {:induction false} RollbackDeletes(remove: Dict<Bucket>, j: nat, deletes: nat -> string, collect: Dict<Bucket>,
                                           deleted: seq<string>)
    requires j <= |remove|
    requires forall e :: e in remove ==> e.1.Deposited?
    ensures RollbackFrom(remove, j, deletes, collect, deleted).0.None?
    ensures RollbackFrom(remove, j, deletes, collect, deleted).2 == deleted + SelfLinks(remove[j..])
    decreases |remove| - j
  {
    forall k | j <= k < |remove|
      ensures remove[k].1.Deposited?
    {
      assert remove[k] in remove;
    }
    if j < |remove| {
      var self := remove[j].1.selfLink;
      var collect' := Put(collect, DeletedKey(remove[j].0), DeleteReply(deletes(j)));
      RollbackStep(remove, j, deletes, collect, deleted);
      RollbackDeletes(remove, j + 1, deletes, collect', deleted + [self]);
      assert remove[j..][1..] == remove[j + 1..];
      AppendAssoc(deleted, [self], SelfLinks(remove[j + 1..]));
    } else {
      assert remove[j..] == [];
    }
  }

  /** One deletion of the rollback. */
  lemma RollbackStep(remove: Dict<Bucket>, j: nat, deletes: nat -> string, collect: Dict<Bucket>,
                     deleted: seq<string>)
    requires j < |remove| && remove[j].1.Deposited?
    ensures RollbackFrom(remove, j, deletes, collect, deleted) ==
            RollbackFrom(remove, j + 1, deletes, Put(collect, DeletedKey(remove[j].0), DeleteReply(deletes(j))),
                         deleted + [remove[j].1.selfLink])
  {
  }

  /** The `{key}_deleted` keys of entries, in order. */
  function DeletedKeys(entries: Dict<Bucket>): (r: seq<string>)
    ensures |r| == |entries| && forall t :: 0 <= t < |entries| ==> r[t] == DeletedKey(entries[t].0)
  {
    if entries == [] then [] else [DeletedKey(entries[0].0)] + DeletedKeys(entries[1..])
  }

  /** The rollback adds one `{key}_deleted` entry per deposit it deletes. */
  lemma {:induction false} RollbackKeys(remove: Dict<Bucket>, j: nat, deletes: nat -> string, collect: Dict<Bucket>,
                                        deleted: seq<string>)
    requires j <= |remove|
    requires forall e :: e in remove ==> e.1.Deposited?
    ensures forall key :: HasKey(RollbackFrom(remove, j, deletes, collect, deleted).1, key) <==>
              HasKey(collect, key) || key in DeletedKeys(remove[j..])
    decreases |remove| - j
  {
    if j < |remove| {
      assert remove[j] in remove;
      var collect' := Put(collect, DeletedKey(remove[j].0), DeleteReply(deletes(j)));
      RollbackKeys(remove, j + 1, deletes, collect', deleted + [remove[j].1.selfLink]);
      assert RollbackFrom(remove, j, deletes, collect, deleted) ==
             RollbackFrom(remove, j + 1, deletes, collect', deleted + [remove[j].1.selfLink]);
      assert remove[j..][1..] == remove[j + 1..];
      assert DeletedKeys(remove[j..]) == [DeletedKey(remove[j].0)] + DeletedKeys(remove[j + 1..]);
      assert forall key :: HasKey(collect', key) <==> HasKey(collect, key) || key == DeletedKey(remove[j].0);
    } else {
      assert remove[j..] == [];
    }
  }

  /** Whether Zenodo answered the request for every asset. */
  predicate AllAnswered(replies: seq<Result<Bucket>>) {
    FirstRaise(replies, 0) == |replies|
  }

  /** One create request per asset, in order, up to the first that raises. */
  lemma BucketsRequests(existing: Option<Dict<Bucket>>, issueId: nat, assets: seq<string>,
                        replies: seq<Result<Bucket>>, deletes: nat -> string)
    requires |replies| == |assets|
    ensures var run := BucketsOutcome(existing, issueId, assets, replies, deletes).0;
            && |run.requested| <= |assets| && run.requested == assets[..|run.requested|]
            && (AllAnswered(replies) ==> run.requested == assets)
  {
    CollectRequests(assets, replies, 0, [], []);
    var end := RequestedEnd(replies, 0);
    assert [] + assets[0..end] == assets[..end];
  }

  /** When every request is answered, the replies are stored under exactly
      the assets. */
  lemma BucketsCreated(existing: Option<Dict<Bucket>>, issueId: nat, assets: seq<string>,
                       replies: seq<Result<Bucket>>, deletes: nat -> string)
    requires |replies| == |assets|
    ensures var run := BucketsOutcome(existing, issueId, assets, replies, deletes).0;
            AllAnswered(replies) ==> forall key :: HasKey(run.created, key) <==> key in assets
  {
    if AllAnswered(replies) {
      CollectKeys(assets, replies, 0, [], []);
      var created := CollectFrom(assets, replies, 0, [], []).1;
      RequestsCreated(assets, replies, deletes);
      assert BucketsOutcome(existing, issueId, assets, replies, deletes).0.created == created;
      assert Keys<Bucket>([]) == [];
      assert assets[0..] == assets;
      assert KeysAdded(created, [], assets);
    }
  }

  /** Whatever happens after the creation loop, the run reports what the
      loop collected. */
  lemma RequestsCreated(assets: seq<string>, replies: seq<Result<Bucket>>, deletes: nat -> string)
    requires |replies| == |assets|
    ensures Requests(assets, replies, deletes).0.created == CollectFrom(assets, replies, 0, [], []).1
  {
  }

  /** When a request raises, the task raises too, deletes nothing and
      writes no record. */
  lemma BucketsUnanswered(existing: Option<Dict<Bucket>>, issueId: nat, assets: seq<string>,
                          replies: seq<Result<Bucket>>, deletes: nat -> string)
    requires |replies| == |assets|
    ensures var (run, record) := BucketsOutcome(existing, issueId, assets, replies, deletes);
            !AllAnswered(replies) ==> run.error.Some? && run.deleted == [] && record == existing
  {
  }

  /** The record is written exactly when every request is answered and no
      reply carries a reason; it then holds the replies, and nothing is
      deleted. */
  lemma BucketsWritten(existing: Option<Dict<Bucket>>, issueId: nat, assets: seq<string>,
                       replies: seq<Result<Bucket>>, deletes: nat -> string)
    requires |replies| == |assets|
    ensures var (run, record) := BucketsOutcome(existing, issueId, assets, replies, deletes);
            && (AllAnswered(replies) && !AnyReason(run.created) ==>
                  && run.error.None? && record == Some(run.created) && run.deleted == [] && run.collect == run.created
                  && run.notices != [] && run.notices[|run.notices| - 1] == Created(run.created))
            && (!(AllAnswered(replies) && !AnyReason(run.created)) ==> record == existing)
  {
  }

  /** When every request is answered but some reply carries a reason, the
      task deletes every deposit without a reason through its `self` link,
      in order, raises nothing, writes no record, and reports `collect` with
      one `{key}_deleted` entry per deletion. */
  lemma BucketsRolledBack(existing: Option<Dict<Bucket>>, issueId: nat, assets: seq<string>,
                          replies: seq<Result<Bucket>>, deletes: nat -> string)
    requires |replies| == |assets| && NoDeleteReply(replies)
    ensures var (run, record) := BucketsOutcome(existing, issueId, assets, replies, deletes);
            AllAnswered(replies) && AnyReason(run.created) ==>
              && (forall e :: e in WithoutReason(run.created) ==> e.1.Deposited?)
              && run.deleted == SelfLinks(WithoutReason(run.created))
              && run.error.None? && record == existing
              && (forall key :: HasKey(run.collect, key) <==>
                    HasKey(run.created, key) || key in DeletedKeys(WithoutReason(run.created)))
              && run.notices != [] && run.notices[|run.notices| - 1] == CreationFailed(run.collect)
  {
    var (run, written) := Requests(assets, replies, deletes);
    RequestsRolledBack(assets, replies, deletes);
    var all := Opening(existing, issueId) + run.notices;
    assert BucketsOutcome(existing, issueId, assets, replies, deletes)
        == (run.(notices := all), if written.Some? then written else existing);
    if AllAnswered(replies) && AnyReason(run.created) {
      assert all[|all| - 1] == run.notices[|run.notices| - 1];
    }
  }

  /** The rollback in the requests alone, before the opening notifications. */
  lemma RequestsRolledBack(assets: seq<string>, replies: seq<Result<Bucket>>, deletes: nat -> string)
    requires |replies| == |assets| && NoDeleteReply(replies)
    ensures var (run, record) := Requests(assets, replies, deletes);
            AllAnswered(replies) && AnyReason(run.created) ==>
              && (forall e :: e in WithoutReason(run.created) ==> e.1.Deposited?)
              && run.deleted == SelfLinks(WithoutReason(run.created))
              && run.error.None? && record.None?
              && (forall key :: HasKey(run.collect, key) <==>
                    HasKey(run.created, key) || key in DeletedKeys(WithoutReason(run.created)))
              && run.notices != [] && run.notices[|run.notices| - 1] == CreationFailed(run.collect)
  {
    CollectReplies(assets, replies, 0, [], []);
    var collect := CollectFrom(assets, replies, 0, [], []).1;
    var remove := WithoutReason(collect);
    forall e | e in remove ensures e.1.Deposited? {
      assert e in collect && !HasReason(e.1);
    }
    RollbackDeletes(remove, 0, deletes, collect, []);
    RollbackKeys(remove, 0, deletes, collect, []);
    assert remove[0..] == remove;
  }

  /** An existing record only adds a notification: the task still makes
      every request, and a successful run overwrites the record. */
  lemma ExistingRecordDoesNotShortCircuit(record: Dict<Bucket>, issueId: nat, assets: seq<string>,
                                          replies: seq<Result<Bucket>>, deletes: nat -> string)
    requires |replies| == |assets|
    ensures var (first, written) := BucketsOutcome(None, issueId, assets, replies, deletes);
            var (again, rewritten) := BucketsOutcome(Some(record), issueId, assets, replies, deletes);
            && first.notices != [] && first.notices[0] == Started
            && again == first.(notices := [Started, RecordsExist(DepositFileName(issueId))] + first.notices[1..])
            && rewritten == (if written.Some? then written else Some(record))
  {
    var run := Requests(assets, replies, deletes).0;
    assert Opening(None, issueId) == [Started];
    assert Opening(Some(record), issueId) == [Started, RecordsExist(DepositFileName(issueId))];
    assert ([Started] + run.notices)[1..] == run.notices;
  }

  /** Preparing the authors raises before any request is made. */
  lemma AuthorsBeforeRequests(existing: Option<Dict<Bucket>>, issueId: nat, p: BucketsPayload, order: seq<string>,
                              calls: nat -> CreateCall, deletes: nat -> string)
    requires forall i :: 0 <= i < |p.paper.authors| ==> DistinctKeys(p.paper.authors[i])
    ensures var (run, record) := CreateBucketsOf(existing, issueId, p, order, calls, deletes);
            PreparedAuthors(p.paper, order).Err? ==>
              run.error == Some(PreparedAuthors(p.paper, order).error) && run.requested == [] && record == existing
    ensures var (run, record) := CreateBucketsOf(existing, issueId, p, order, calls, deletes);
            PreparedAuthors(p.paper, order).Ok? ==>
              (run, record) == BucketsOutcome(existing, issueId, p.archiveAssets,
                                              Replies(p, PreparedAuthors(p.paper, order).value, issueId, calls), deletes)
  {
  }

  /** The preparation of the authors: first affiliations resolved and
      assigned, then every author's fields normalised. */
  method PrepareAuthors(paper: PaperData, order: seq<string>) returns (r: Result<seq<Dict<Scalar>>>)
    requires forall i :: 0 <= i < |paper.authors| ==> DistinctKeys(paper.authors[i])
    ensures r == PreparedAuthors(paper, order)
  {
    var mapping := AffiliationMapping(paper.affiliations);
    var firsts := FirstAffiliations(paper.authors, mapping);
    if firsts.Err? {
      return Err(firsts.error);
    }
    FirstAffiliationsSucceed(paper.authors, mapping, []);
    var authors := AssignAffiliations(paper.authors, firsts.value);
    r := NormaliseAuthors(authors, order);
  }

  /** The creation loop: one request per asset, each reply stored in
      `collect` under its asset, until a request raises. */
  method RequestBuckets(p: BucketsPayload, creators: seq<Dict<Scalar>>, issueId: nat, calls: nat -> CreateCall)
    returns (err: Option<Error>, collect: Dict<Bucket>, requested: seq<string>)
    ensures (err, collect, requested) == CollectFrom(p.archiveAssets, Replies(p, creators, issueId, calls), 0, [], [])
  {
    ghost var replies := Replies(p, creators, issueId, calls);
    var assets := p.archiveAssets;
    collect := [];
    requested := [];
    for i := 0 to |assets|
      invariant CollectFrom(assets, replies, i, collect, requested) == CollectFrom(assets, replies, 0, [], [])
    {
      requested := requested + [assets[i]];
      var r := CreateReply(p.paper.title, assets[i], creators, p.repositoryUrl, issueId, calls(i));
      assert r == replies[i];
      if r.Err? {
        return Some(r.error), collect, requested;
      }
      collect := Put(collect, assets[i], r.value);
    }
    err := None;
  }

  /** The rollback loop: delete each deposit through its `self` link and
      record the reply under `{key}_deleted`. */
  method Rollback(remove: Dict<Bucket>, deletes: nat -> string, created: Dict<Bucket>)
    returns (err: Option<Error>, collect: Dict<Bucket>, deleted: seq<string>)
    ensures (err, collect, deleted) == RollbackFrom(remove, 0, deletes, created, [])
  {
    collect := created;
    deleted := [];
    for j := 0 to |remove|
      invariant RollbackFrom(remove, j, deletes, collect, deleted) == RollbackFrom(remove, 0, deletes, created, [])
    {
      match remove[j].1
      case Deposited(self, _, _) =>
        deleted := deleted + [self];
        collect := Put(collect, DeletedKey(remove[j].0), DeleteReply(deletes(j)));
      case _ =>
        return Some(Raised("TypeError")), collect, deleted;
    }
    err := None;
  }

  /** zenodo_create_buckets_task over the deposit directory of its issue. */
  method CreateBucketsTask(dir: DepositDirectory, p: BucketsPayload, order: seq<string>,
                           calls: nat -> CreateCall, deletes: nat -> string) returns (run: BucketsRun)
    requires forall i :: 0 <= i < |p.paper.authors| ==> DistinctKeys(p.paper.authors[i])
    modifies dir
    ensures (run, dir.deposit) == CreateBucketsOf(old(dir.deposit), dir.issueId, p, order, calls, deletes)
    ensures dir.receipts == old(dir.receipts)
  {
    var opening := Opening(dir.deposit, dir.issueId);
    var creators := PrepareAuthors(p.paper, order);
    if creators.Err? {
      return BucketsRun(Some(creators.error), opening, [], [], [], []);
    }
    var err, collect, requested := RequestBuckets(p, creators.value, dir.issueId, calls);
    var notices := opening + CreatingNotices(requested);
    if err.Some? {
      return BucketsRun(err, notices, requested, collect, [], collect);
    }
    if AnyReason(collect) {
      var err', collect', deleted := Rollback(WithoutReason(collect), deletes, collect);
      if err'.Some? {
        return BucketsRun(err', notices, requested, collect, deleted, collect');
      }
      run := BucketsRun(None, opening + (CreatingNotices(requested) + [CreationFailed(collect')]),
                        requested, collect, deleted, collect');
    } else {
      dir.deposit := Some(collect);
      run := BucketsRun(None, opening + (CreatingNotices(requested) + [Created(collect)]), requested, collect, [], collect);
    }
  }
}
