/** The CUB-200-2011 Indonesian caption loader: the shape of a class name,
    the flattening and per-image grouping of the caption file, the inner
    joins of images, captions, class labels and split assignments, the
    train/test partition, and the two example generators (one record per
    image, or one record per caption). The 200-entry class table itself
    lives in `CubBahasaInfo`; the generators take it as a parameter.
 */
module CubBahasa {
  import opened Common

  const DatasetName := "cub_bahasa"
  const SeaCrowdSchemaName := "imtext"
  const SourceSchema := "source"
  const ImTextSchema := "seacrowd_" + SeaCrowdSchemaName
  const SourceVersion := "1.0.0"
  const SeaCrowdVersion := "2024.06.20"
  const DefaultConfigName := DatasetName + "_source"

  // ---------------------------------------------------------------------
  // Class names
  // ---------------------------------------------------------------------

  /** The name of class `k`: `k` in three digits, a dot and the species. */
  function ClassName(k: nat, species: string): string
  {
    Padded(k, 3) + "." + species
  }

  /** A class name starts with its key in three digits and a dot, so the
      key can be read back from the name. */
  lemma ClassNamePrefix(k: nat, species: string)
    requires k < 1000
    ensures var name := ClassName(k, species);
      && |name| >= 4 && name[3] == '.'
      && AllDigits(name[..3]) && DigitsValue(name[..3]) == k
  {
    assert Pow10(3) == 1000 by {
      assert Pow10(1) == 10;
      assert Pow10(2) == 100;
    }
    PaddedLength(k, 3);
    PaddedRoundTrip(k, 3);
    assert ClassName(k, species)[..3] == Padded(k, 3);
  }

  /** Distinct keys name distinct classes, whatever the species. */
  lemma ClassNamesDiffer(j: nat, k: nat, s: string, t: string)
    requires j < 1000 && k < 1000 && j != k
    ensures ClassName(j, s) != ClassName(k, t)
  {
    ClassNamePrefix(j, s);
    ClassNamePrefix(k, t);
  }

  /** The class names of a species list given in key order, keys from 1. */
  function NamesOf(species: seq<string>): (names: seq<string>)
    ensures |names| == |species|
  {
    seq(|species|, i requires 0 <= i < |species| => ClassName(i + 1, species[i]))
  }

  /** With fewer than 1000 classes the names are pairwise distinct, so
      `index` finds class `k` at position `k - 1`. */
  lemma NamesOfIndex(species: seq<string>, k: int)
    requires 1 <= k <= |species| < 1000
    ensures NamesOf(species)[k - 1] == ClassName(k, species[k - 1])
    ensures IndexOf(NamesOf(species), ClassName(k, species[k - 1])) == Some(k - 1)
  {
    var names := NamesOf(species);
    forall a, b | 0 <= a < b < |names|
      ensures names[a] != names[b]
    {
      ClassNamesDiffer(a + 1, b + 1, species[a], species[b]);
    }
    IndexOfDistinct(names, k - 1);
  }

  // ---------------------------------------------------------------------
  // Captions: flatten and group by image name
  // ---------------------------------------------------------------------

  datatype CaptionPair = CaptionPair(english: string, indo: string)

  /** One entry of the caption file's `dataset` list. */
  datatype TextItem = TextItem(filename: string, captions: seq<CaptionPair>)

  /** One row of `df_text`. */
  datatype TextRow = TextRow(imageName: string, enCaption: string, idCaption: string)

  /** The rows one item contributes, one per caption, in caption order. */
  function ItemRows(item: TextItem): (rows: seq<TextRow>)
    ensures |rows| == |item.captions|
  {
    seq(|item.captions|, c requires 0 <= c < |item.captions| =>
      TextRow(item.filename, item.captions[c].english, item.captions[c].indo))
  }

  /** `df_text`: one row per (item, caption) pair, items in file order. */
  function FlattenText(items: seq<TextItem>): seq<TextRow>
  {
    if |items| == 0 then [] else ItemRows(items[0]) + FlattenText(items[1..])
  }

  /** The number of captions in the caption file. */
  function CaptionCount(items: seq<TextItem>): nat
  {
    if |items| == 0 then 0 else |items[0].captions| + CaptionCount(items[1..])
  }

  /** `df_text` has exactly one row per caption, and caption `c` of item `i`
      sits right after the captions of the items before `i`. */
  lemma {:induction false} FlattenTextAt(items: seq<TextItem>, i: nat, c: nat)
    requires i < |items| && c < |items[i].captions|
    ensures |FlattenText(items)| == CaptionCount(items)
    ensures CaptionCount(items[..i]) + c < |FlattenText(items)|
    ensures FlattenText(items)[CaptionCount(items[..i]) + c]
         == TextRow(items[i].filename, items[i].captions[c].english, items[i].captions[c].indo)
    decreases i
  {
    FlattenTextCount(items);
    if i > 0 {
      FlattenTextAt(items[1..], i - 1, c);
      assert items[1..][i - 1] == items[i];
      assert items[..i][1..] == items[1..][..i - 1];
    }
  }

  lemma {:induction false} FlattenTextCount(items: seq<TextItem>)
    ensures |FlattenText(items)| == CaptionCount(items)
  {
    if |items| > 0 {
      FlattenTextCount(items[1..]);
    }
  }

  /** The rows about image `name`, in order. */
  function RowsNamed(rows: seq<TextRow>, name: string): seq<TextRow>
  {
    if |rows| == 0 then []
    else (if rows[0].imageName == name then [rows[0]] else []) + RowsNamed(rows[1..], name)
  }

  /** The distinct image names of `rows`, in order of first appearance. */
  function Names(rows: seq<TextRow>): seq<string>
  {
    if |rows| == 0 then []
    else
      var rest := Names(rows[..|rows| - 1]);
      if rows[|rows| - 1].imageName in rest then rest else rest + [rows[|rows| - 1].imageName]
  }

  /** One row of `grouped_text`. */
  datatype CaptionGroup = CaptionGroup(imageName: string, enCaptions: seq<string>, idCaptions: seq<string>)

  /** The group of one image: its English and Indonesian captions, each list
      in row order, so that position `j` of both comes from the same row. */
  function Group(rows: seq<TextRow>, name: string): (g: CaptionGroup)
    ensures g.imageName == name && |g.enCaptions| == |g.idCaptions|
  {
    var m := RowsNamed(rows, name);
    CaptionGroup(name,
                 seq(|m|, j requires 0 <= j < |m| => m[j].enCaption),
                 seq(|m|, j requires 0 <= j < |m| => m[j].idCaption))
  }

  /** `df_text.groupby('image_name').agg(list).reset_index()`. */
  function GroupCaptions(rows: seq<TextRow>): (gs: seq<CaptionGroup>)
    ensures |gs| == |Names(rows)|
  {
    var names := Names(rows);
    seq(|names|, i requires 0 <= i < |names| => Group(rows, names[i]))
  }

  /** The group names are exactly the image names of the rows, each once. */
  lemma {:induction false} NamesSpec(rows: seq<TextRow>)
    ensures forall x :: x in Names(rows) <==> exists i :: 0 <= i < |rows| && rows[i].imageName == x
    ensures forall a, b :: 0 <= a < b < |Names(rows)| ==> Names(rows)[a] != Names(rows)[b]
    decreases |rows|
  {
    if |rows| > 0 {
      var n := |rows| - 1;
      var init := rows[..n];
      NamesSpec(init);
      assert forall i :: 0 <= i < n ==> init[i] == rows[i];
      forall x | x in Names(rows)
        ensures exists i :: 0 <= i < |rows| && rows[i].imageName == x
      {
        if x in Names(init) {
          var i :| 0 <= i < n && init[i].imageName == x;
          assert rows[i].imageName == x;
        } else {
          assert rows[n].imageName == x;
        }
      }
      forall x | exists i :: 0 <= i < |rows| && rows[i].imageName == x
        ensures x in Names(rows)
      {
        var i :| 0 <= i < |rows| && rows[i].imageName == x;
        if i < n {
          assert init[i].imageName == x;
        }
      }
    }
  }

  /** Every image name of the rows has exactly one group, holding every
      caption of that image. */
  lemma {:induction false} GroupCaptionsSpec(rows: seq<TextRow>)
    ensures forall g :: g in GroupCaptions(rows) ==> g == Group(rows, g.imageName)
    ensures forall i :: 0 <= i < |rows| ==>
              exists k :: 0 <= k < |GroupCaptions(rows)| && GroupCaptions(rows)[k].imageName == rows[i].imageName
    ensures forall k :: 0 <= k < |GroupCaptions(rows)| ==>
              exists i :: 0 <= i < |rows| && rows[i].imageName == GroupCaptions(rows)[k].imageName
    ensures forall a, b :: 0 <= a < b < |GroupCaptions(rows)| ==>
              GroupCaptions(rows)[a].imageName != GroupCaptions(rows)[b].imageName
  {
    NamesSpec(rows);
    GroupCaptionsAt(rows);
    GroupForEveryRow(rows);
    RowForEveryGroup(rows);
  }

  /** Group `k` is the group of the `k`-th distinct name. */
  lemma GroupCaptionsAt(rows: seq<TextRow>)
    ensures forall k :: 0 <= k < |GroupCaptions(rows)| ==>
              GroupCaptions(rows)[k] == Group(rows, Names(rows)[k]) &&
              GroupCaptions(rows)[k].imageName == Names(rows)[k]
  {
  }

  lemma GroupForEveryRow(rows: seq<TextRow>)
    ensures forall i :: 0 <= i < |rows| ==>
              exists k :: 0 <= k < |GroupCaptions(rows)| && GroupCaptions(rows)[k].imageName == rows[i].imageName
  {
    NamesSpec(rows);
    GroupCaptionsAt(rows);
    var gs, names := GroupCaptions(rows), Names(rows);
    forall i | 0 <= i < |rows|
      ensures exists k :: 0 <= k < |gs| && gs[k].imageName == rows[i].imageName
    {
      assert rows[i].imageName in names;
      var k :| 0 <= k < |names| && names[k] == rows[i].imageName;
      assert gs[k].imageName == rows[i].imageName;
    }
  }

  lemma RowForEveryGroup(rows: seq<TextRow>)
    ensures forall k :: 0 <= k < |GroupCaptions(rows)| ==>
              exists i :: 0 <= i < |rows| && rows[i].imageName == GroupCaptions(rows)[k].imageName
  {
    NamesSpec(rows);
    GroupCaptionsAt(rows);
    var gs, names := GroupCaptions(rows), Names(rows);
    forall k | 0 <= k < |gs|
      ensures exists i :: 0 <= i < |rows| && rows[i].imageName == gs[k].imageName
    {
      assert names[k] in names;
    }
  }

  /** Filtering by name distributes over concatenation. */
  lemma {:induction false} RowsNamedAppend(a: seq<TextRow>, b: seq<TextRow>, name: string)
    ensures RowsNamed(a + b, name) == RowsNamed(a, name) + RowsNamed(b, name)
    decreases |a|
  {
    if |a| > 0 {
      var h := if a[0].imageName == name then [a[0]] else [];
      RowsNamedAppend(a[1..], b, name);
      assert (a + b)[0] == a[0];
      assert (a + b)[1..] == a[1..] + b;
      assert RowsNamed(a + b, name) == h + RowsNamed(a[1..] + b, name);
      assert RowsNamed(a, name) == h + RowsNamed(a[1..], name);
      SeqAssoc(h, RowsNamed(a[1..], name), RowsNamed(b, name));
    } else {
      assert a + b == b;
    }
  }

  lemma {:induction false} RowsNamedItem(item: TextItem, name: string)
    ensures RowsNamed(ItemRows(item), name) == if item.filename == name then ItemRows(item) else []
    decreases |item.captions|
  {
    var rows := ItemRows(item);
    if |rows| > 0 {
      var rest := TextItem(item.filename, item.captions[1..]);
      RowsNamedItem(rest, name);
      assert rows[1..] == ItemRows(rest);
    }
  }

  /** When each file name occurs once in the caption file, the group of an
      item's image holds exactly that item's captions, in their order. */
  lemma {:induction false} GroupRecoversCaptions(items: seq<TextItem>, i: nat)
    requires i < |items|
    requires forall a, b :: 0 <= a < b < |items| ==> items[a].filename != items[b].filename
    ensures var g := Group(FlattenText(items), items[i].filename);
      && |g.enCaptions| == |items[i].captions|
      && forall c :: 0 <= c < |items[i].captions| ==>
           g.enCaptions[c] == items[i].captions[c].english && g.idCaptions[c] == items[i].captions[c].indo
  {
    RowsNamedUnique(items, i);
  }

  lemma {:induction false} RowsNamedUnique(items: seq<TextItem>, i: nat)
    requires i < |items|
    requires forall a, b :: 0 <= a < b < |items| ==> items[a].filename != items[b].filename
    ensures RowsNamed(FlattenText(items), items[i].filename) == ItemRows(items[i])
    decreases |items|
  {
    var name := items[i].filename;
    RowsNamedAppend(ItemRows(items[0]), FlattenText(items[1..]), name);
    RowsNamedItem(items[0], name);
    if i == 0 {
      RowsNamedAbsent(items[1..], name);
    } else {
      assert items[1..][i - 1] == items[i];
      RowsNamedUnique(items[1..], i - 1);
    }
  }

  lemma {:induction false} RowsNamedAbsent(items: seq<TextItem>, name: string)
    requires forall a :: 0 <= a < |items| ==> items[a].filename != name
    ensures RowsNamed(FlattenText(items), name) == []
    decreases |items|
  {
    if |items| > 0 {
      RowsNamedAppend(ItemRows(items[0]), FlattenText(items[1..]), name);
      RowsNamedItem(items[0], name);
      RowsNamedAbsent(items[1..], name);
    }
  }

  // ---------------------------------------------------------------------
  // Inner joins
  // ---------------------------------------------------------------------

  /** The rows `comb(a, b)` for every `b` of `right` whose key equals the key
      of `a`, in the order of `right`. */
  function Matches<A, B, K(==), C>(a: A, right: seq<B>, lk: A -> K, rk: B -> K, comb: (A, B) -> C): seq<C>
  {
    if |right| == 0 then []
    else (if rk(right[0]) == lk(a) then [comb(a, right[0])] else []) + Matches(a, right[1..], lk, rk, comb)
  }

  /** `pd.merge(left, right, on=...)` with the default inner join: for each
      left row in order, one row per matching right row. */
  function InnerJoin<A, B, K(==), C>(left: seq<A>, right: seq<B>, lk: A -> K, rk: B -> K, comb: (A, B) -> C): seq<C>
  {
    if |left| == 0 then []
    else Matches(left[0], right, lk, rk, comb) + InnerJoin(left[1..], right, lk, rk, comb)
  }

  /** `c` is the row the join builds from `a` and `b`, and their keys agree. */
  ghost predicate Combines<A, B, K, C>(c: C, a: A, b: B, lk: A -> K, rk: B -> K, comb: (A, B) -> C)
  {
    rk(b) == lk(a) && c == comb(a, b)
  }

  lemma {:induction false} MatchesMembers<A, B, K, C>(a: A, right: seq<B>, lk: A -> K, rk: B -> K, comb: (A, B) -> C)
    ensures forall c :: c in Matches(a, right, lk, rk, comb) ==>
              exists j :: 0 <= j < |right| && Combines(c, a, right[j], lk, rk, comb)
    ensures forall j :: 0 <= j < |right| && rk(right[j]) == lk(a) ==> comb(a, right[j]) in Matches(a, right, lk, rk, comb)
    decreases |right|
  {
    if |right| > 0 {
      var tail := right[1..];
      MatchesMembers(a, tail, lk, rk, comb);
      forall c | c in Matches(a, right, lk, rk, comb)
        ensures exists j :: 0 <= j < |right| && Combines(c, a, right[j], lk, rk, comb)
      {
        if c !in Matches(a, tail, lk, rk, comb) {
          assert Combines(c, a, right[0], lk, rk, comb);
        } else {
          var j :| 0 <= j < |tail| && Combines(c, a, tail[j], lk, rk, comb);
          assert right[j + 1] == tail[j];
        }
      }
      forall j | 0 <= j < |right| && rk(right[j]) == lk(a)
        ensures comb(a, right[j]) in Matches(a, right, lk, rk, comb)
      {
        if j > 0 {
          assert tail[j - 1] == right[j];
        }
      }
    }
  }

  /** A row is in the join exactly when it combines a left row and a right
      row with equal keys. */
  lemma {:induction false} InnerJoinMembers<A, B, K, C>(left: seq<A>, right: seq<B>, lk: A -> K, rk: B -> K, comb: (A, B) -> C)
    ensures forall c :: c in InnerJoin(left, right, lk, rk, comb) ==>
              exists i, j :: 0 <= i < |left| && 0 <= j < |right| && Combines(c, left[i], right[j], lk, rk, comb)
    ensures forall i, j :: 0 <= i < |left| && 0 <= j < |right| && rk(right[j]) == lk(left[i]) ==>
              comb(left[i], right[j]) in InnerJoin(left, right, lk, rk, comb)
    decreases |left|
  {
    if |left| > 0 {
      var head, tail := left[0], left[1..];
      MatchesMembers(head, right, lk, rk, comb);
      InnerJoinMembers(tail, right, lk, rk, comb);
      assert InnerJoin(left, right, lk, rk, comb) == Matches(head, right, lk, rk, comb) + InnerJoin(tail, right, lk, rk, comb);
      forall c | c in InnerJoin(left, right, lk, rk, comb)
        ensures exists i, j :: 0 <= i < |left| && 0 <= j < |right| && Combines(c, left[i], right[j], lk, rk, comb)
      {
        if c in Matches(head, right, lk, rk, comb) {
          var j :| 0 <= j < |right| && Combines(c, head, right[j], lk, rk, comb);
          assert Combines(c, left[0], right[j], lk, rk, comb);
        } else {
          assert c in InnerJoin(tail, right, lk, rk, comb);
          var i, j :| 0 <= i < |tail| && 0 <= j < |right| && Combines(c, tail[i], right[j], lk, rk, comb);
          assert left[i + 1] == tail[i];
        }
      }
      forall i, j | 0 <= i < |left| && 0 <= j < |right| && rk(right[j]) == lk(left[i])
        ensures comb(left[i], right[j]) in InnerJoin(left, right, lk, rk, comb)
      {
        if i > 0 {
          assert tail[i - 1] == left[i];
        }
      }
    }
  }

  /** When the right keys are distinct, a left row with a match contributes
      exactly one row. */
  lemma {:induction false} MatchesUnique<A, B, K, C>(a: A, right: seq<B>, lk: A -> K, rk: B -> K, comb: (A, B) -> C, j: nat)
    requires j < |right| && rk(right[j]) == lk(a)
    requires forall x, y :: 0 <= x < y < |right| ==> rk(right[x]) != rk(right[y])
    ensures Matches(a, right, lk, rk, comb) == [comb(a, right[j])]
    decreases |right|
  {
    if j == 0 {
      MatchesNone(a, right[1..], lk, rk, comb);
    } else {
      assert right[1..][j - 1] == right[j];
      MatchesUnique(a, right[1..], lk, rk, comb, j - 1);
    }
  }

  lemma {:induction false} MatchesNone<A, B, K, C>(a: A, right: seq<B>, lk: A -> K, rk: B -> K, comb: (A, B) -> C)
    requires forall x :: 0 <= x < |right| ==> rk(right[x]) != lk(a)
    ensures Matches(a, right, lk, rk, comb) == []
    decreases |right|
  {
    if |right| > 0 {
      MatchesNone(a, right[1..], lk, rk, comb);
    }
  }

  /** A join against a table with distinct keys in which every left row has
      a partner keeps the left rows one for one and in order. */
  lemma {:induction false} InnerJoinOneToOne<A, B, K, C>(left: seq<A>, right: seq<B>, lk: A -> K, rk: B -> K, comb: (A, B) -> C)
    requires forall x, y :: 0 <= x < y < |right| ==> rk(right[x]) != rk(right[y])
    requires forall i :: 0 <= i < |left| ==> exists j :: 0 <= j < |right| && rk(right[j]) == lk(left[i])
    ensures |InnerJoin(left, right, lk, rk, comb)| == |left|
    ensures forall i, j :: 0 <= i < |left| && 0 <= j < |right| && rk(right[j]) == lk(left[i]) ==>
              InnerJoin(left, right, lk, rk, comb)[i] == comb(left[i], right[j])
    decreases |left|
  {
    if |left| > 0 {
      var head := left[0];
      assert exists j :: 0 <= j < |right| && rk(right[j]) == lk(head);
      var j0 :| 0 <= j0 < |right| && rk(right[j0]) == lk(head);
      MatchesUnique(left[0], right, lk, rk, comb, j0);
      assert forall i :: 0 <= i < |left[1..]| ==> left[1..][i] == left[i + 1];
      InnerJoinOneToOne(left[1..], right, lk, rk, comb);
      var out := InnerJoin(left, right, lk, rk, comb);
      forall i, j | 0 <= i < |left| && 0 <= j < |right| && rk(right[j]) == lk(left[i])
        ensures out[i] == comb(left[i], right[j])
      {
        if i == 0 {
          assert j == j0;
        } else {
          assert out[i] == InnerJoin(left[1..], right, lk, rk, comb)[i - 1];
        }
      }
    }
  }

  /** Joining a concatenation of left tables joins each part in turn. */
  lemma {:induction false} InnerJoinAppend<A, B, K, C>(a: seq<A>, b: seq<A>, right: seq<B>, lk: A -> K, rk: B -> K, comb: (A, B) -> C)
    ensures InnerJoin(a + b, right, lk, rk, comb) == InnerJoin(a, right, lk, rk, comb) + InnerJoin(b, right, lk, rk, comb)
    decreases |a|
  {
    if |a| == 0 {
      assert a + b == b;
    } else {
      assert (a + b)[0] == a[0];
      assert (a + b)[1..] == a[1..] + b;
      InnerJoinAppend(a[1..], b, right, lk, rk, comb);
    }
  }

  /** Against distinct right keys a single left row joins to exactly its
      partner's row, or to nothing when it has no partner. */
  lemma JoinSingle<A, B, K, C>(a: A, right: seq<B>, lk: A -> K, rk: B -> K, comb: (A, B) -> C)
    requires forall x, y :: 0 <= x < y < |right| ==> rk(right[x]) != rk(right[y])
    ensures forall j :: 0 <= j < |right| && rk(right[j]) == lk(a) ==> InnerJoin([a], right, lk, rk, comb) == [comb(a, right[j])]
    ensures (forall j :: 0 <= j < |right| ==> rk(right[j]) != lk(a)) ==> InnerJoin([a], right, lk, rk, comb) == []
  {
    assert [a][1..] == [];
    assert InnerJoin([a], right, lk, rk, comb) == Matches(a, right, lk, rk, comb);
    forall j | 0 <= j < |right| && rk(right[j]) == lk(a)
      ensures InnerJoin([a], right, lk, rk, comb) == [comb(a, right[j])]
    {
      MatchesUnique(a, right, lk, rk, comb, j);
    }
    if forall j :: 0 <= j < |right| ==> rk(right[j]) != lk(a) {
      MatchesNone(a, right, lk, rk, comb);
    }
  }

  // ---------------------------------------------------------------------
  // The metadata tables and the merged frame
  // ---------------------------------------------------------------------

  /** A line of `images.txt`: the image id and its path below `images/`. */
  datatype ImageLine = ImageLine(imageId: int, path: string)

  /** A line of `image_class_labels.txt`. */
  datatype LabelLine = LabelLine(imageId: int, classId: int)

  /** A line of `train_test_split.txt`. */
  datatype SplitLine = SplitLine(imageId: int, isTrain: int)

  /** A row of `df_image` once the path column holds full paths. */
  datatype ImageRow = ImageRow(imageId: int, imagePath: string)

  /** A row of the merged frame `df`. */
  datatype Row = Row(imageId: int, imagePath: string, enCaptions: seq<string>, idCaptions: seq<string>,
                     classId: int, isTrain: int)

  /** `Path(image_meta.parent, 'images', x)` for an image root `root`. */
  function ImagePath(root: string, x: string): string
  {
    PathJoin(PathJoin(PathJoin(root, "CUB_200_2011"), "images"), x)
  }

  /** The image name taken from the full path is the final component of the
      listed path. */
  lemma ImagePathName(root: string, x: string)
    ensures Basename(ImagePath(root, x)) == Basename(x)
  {
    BasenamePathJoin(PathJoin(PathJoin(root, "CUB_200_2011"), "images"), x);
  }

  function ImageRows(root: string, images: seq<ImageLine>): (rows: seq<ImageRow>)
    ensures |rows| == |images|
  {
    seq(|images|, i requires 0 <= i < |images| => ImageRow(images[i].imageId, ImagePath(root, images[i].path)))
  }

  /** `pd.merge(df_image, grouped_text, on="image_name")`, with the image
      name column dropped afterwards. */
  function MergeCaptions(images: seq<ImageRow>, groups: seq<CaptionGroup>): seq<Row>
  {
    InnerJoin(images, groups, (r: ImageRow) => Basename(r.imagePath), (g: CaptionGroup) => g.imageName,
              (r: ImageRow, g: CaptionGroup) => Row(r.imageId, r.imagePath, g.enCaptions, g.idCaptions, 0, 0))
  }

  /** `pd.merge(df, df_label, on="image_id")`. */
  function MergeLabels(df: seq<Row>, labels: seq<LabelLine>): seq<Row>
  {
    InnerJoin(df, labels, (r: Row) => r.imageId, (l: LabelLine) => l.imageId,
              (r: Row, l: LabelLine) => r.(classId := l.classId))
  }

  /** `pd.merge(df, df_split, on="image_id")`. */
  function MergeSplits(df: seq<Row>, splits: seq<SplitLine>): seq<Row>
  {
    InnerJoin(df, splits, (r: Row) => r.imageId, (s: SplitLine) => s.imageId,
              (r: Row, s: SplitLine) => r.(isTrain := s.isTrain))
  }

  /** The three merges applied to the images' rows and the caption rows. */
  function MergedFrom(root: string, images: seq<ImageLine>, rows: seq<TextRow>,
                      labels: seq<LabelLine>, splits: seq<SplitLine>): seq<Row>
  {
    MergeSplits(MergeLabels(MergeCaptions(ImageRows(root, images), GroupCaptions(rows)), labels), splits)
  }

  /** The merged frame `df` of `_split_generators`. With distinct ids in
      the label and split files it has one row per surviving image. */
  function Merged(root: string, images: seq<ImageLine>, items: seq<TextItem>,
                  labels: seq<LabelLine>, splits: seq<SplitLine>): (r: seq<Row>)
    ensures DistinctIds(labels, splits) ==> |r| == |Surviving(images, FlattenText(items), labels, splits)|
  {
    MergedFromLength(root, images, FlattenText(items), labels, splits);
    MergedFrom(root, images, FlattenText(items), labels, splits)
  }

  /** The merged row built from one image, its caption group, one label line
      and one split line. */
  function MergedRow(root: string, img: ImageLine, rows: seq<TextRow>, lab: LabelLine, spl: SplitLine): Row
  {
    var g := Group(rows, Basename(img.path));
    Row(img.imageId, ImagePath(root, img.path), g.enCaptions, g.idCaptions, lab.classId, spl.isTrain)
  }

  /** The row of the caption merge built from one image. */
  function CaptionedRow(root: string, img: ImageLine, rows: seq<TextRow>): Row
  {
    var g := Group(rows, Basename(img.path));
    Row(img.imageId, ImagePath(root, img.path), g.enCaptions, g.idCaptions, 0, 0)
  }

  /** The caption merge keeps exactly the images whose file name has a
      caption, each with its caption group. */
  lemma MergeCaptionsMembers(root: string, images: seq<ImageLine>, rows: seq<TextRow>)
    ensures forall r :: r in MergeCaptions(ImageRows(root, images), GroupCaptions(rows)) ==>
              exists i :: 0 <= i < |images| && Basename(images[i].path) in Names(rows) && r == CaptionedRow(root, images[i], rows)
    ensures forall i :: 0 <= i < |images| && Basename(images[i].path) in Names(rows) ==>
              CaptionedRow(root, images[i], rows) in MergeCaptions(ImageRows(root, images), GroupCaptions(rows))
  {
    MergeCaptionsSound(root, images, rows);
    MergeCaptionsComplete(root, images, rows);
  }

  /** Every row of the caption merge comes from an image with captions. */
  lemma MergeCaptionsSound(root: string, images: seq<ImageLine>, rows: seq<TextRow>)
    ensures forall r :: r in MergeCaptions(ImageRows(root, images), GroupCaptions(rows)) ==>
              exists i :: 0 <= i < |images| && Basename(images[i].path) in Names(rows) && r == CaptionedRow(root, images[i], rows)
  {
    var left, right := ImageRows(root, images), GroupCaptions(rows);
    var lk := (r: ImageRow) => Basename(r.imagePath);
    var rk := (g: CaptionGroup) => g.imageName;
    var comb := (r: ImageRow, g: CaptionGroup) => Row(r.imageId, r.imagePath, g.enCaptions, g.idCaptions, 0, 0);
    assert MergeCaptions(left, right) == InnerJoin(left, right, lk, rk, comb);
    InnerJoinMembers(left, right, lk, rk, comb);
    forall r | r in MergeCaptions(left, right)
      ensures exists i :: 0 <= i < |images| && Basename(images[i].path) in Names(rows) && r == CaptionedRow(root, images[i], rows)
    {
      var i, j :| 0 <= i < |left| && 0 <= j < |right| && Combines(r, left[i], right[j], lk, rk, comb);
      MergeCaptionsPair(root, images, rows, i, j);
    }
  }

  /** Pairing image `i` with caption group `j` on equal file names gives the
      captioned row of image `i`. */
  lemma MergeCaptionsPair(root: string, images: seq<ImageLine>, rows: seq<TextRow>, i: nat, j: nat)
    requires i < |images| && j < |GroupCaptions(rows)|
    requires GroupCaptions(rows)[j].imageName == Basename(ImageRows(root, images)[i].imagePath)
    ensures Basename(images[i].path) in Names(rows)
    ensures Row(ImageRows(root, images)[i].imageId, ImageRows(root, images)[i].imagePath,
                GroupCaptions(rows)[j].enCaptions, GroupCaptions(rows)[j].idCaptions, 0, 0)
         == CaptionedRow(root, images[i], rows)
  {
    GroupCaptionsAt(rows);
    ImagePathName(root, images[i].path);
    assert Names(rows)[j] == Basename(images[i].path);
  }

  /** Every image with captions has its captioned row in the merge. */
  lemma MergeCaptionsComplete(root: string, images: seq<ImageLine>, rows: seq<TextRow>)
    ensures forall i :: 0 <= i < |images| && Basename(images[i].path) in Names(rows) ==>
              CaptionedRow(root, images[i], rows) in MergeCaptions(ImageRows(root, images), GroupCaptions(rows))
  {
    var left, right := ImageRows(root, images), GroupCaptions(rows);
    var names := Names(rows);
    var lk := (r: ImageRow) => Basename(r.imagePath);
    var rk := (g: CaptionGroup) => g.imageName;
    var comb := (r: ImageRow, g: CaptionGroup) => Row(r.imageId, r.imagePath, g.enCaptions, g.idCaptions, 0, 0);
    assert MergeCaptions(left, right) == InnerJoin(left, right, lk, rk, comb);
    InnerJoinMembers(left, right, lk, rk, comb);
    forall i | 0 <= i < |images| && Basename(images[i].path) in names
      ensures CaptionedRow(root, images[i], rows) in MergeCaptions(left, right)
    {
      var j :| 0 <= j < |names| && names[j] == Basename(images[i].path);
      GroupCaptionsAt(rows);
      ImagePathName(root, images[i].path);
      MergeCaptionsPair(root, images, rows, i, j);
      assert rk(right[j]) == lk(left[i]);
      assert comb(left[i], right[j]) == CaptionedRow(root, images[i], rows);
    }
  }

  /** A row survives the label merge once per label line with its image id,
      taking that line's class. */
  lemma MergeLabelsMembers(df: seq<Row>, labels: seq<LabelLine>)
    ensures forall r :: r in MergeLabels(df, labels) ==>
              exists i, l :: 0 <= i < |df| && 0 <= l < |labels| && labels[l].imageId == df[i].imageId
                          && r == df[i].(classId := labels[l].classId)
    ensures forall i, l :: 0 <= i < |df| && 0 <= l < |labels| && labels[l].imageId == df[i].imageId ==>
              df[i].(classId := labels[l].classId) in MergeLabels(df, labels)
  {
    var lk := (r: Row) => r.imageId;
    var rk := (l: LabelLine) => l.imageId;
    var comb := (r: Row, l: LabelLine) => r.(classId := l.classId);
    assert MergeLabels(df, labels) == InnerJoin(df, labels, lk, rk, comb);
    InnerJoinMembers(df, labels, lk, rk, comb);
    forall r | r in MergeLabels(df, labels)
      ensures exists i, l :: 0 <= i < |df| && 0 <= l < |labels| && labels[l].imageId == df[i].imageId
                          && r == df[i].(classId := labels[l].classId)
    {
      var i, l :| 0 <= i < |df| && 0 <= l < |labels| && Combines(r, df[i], labels[l], lk, rk, comb);
    }
    forall i, l | 0 <= i < |df| && 0 <= l < |labels| && labels[l].imageId == df[i].imageId
      ensures df[i].(classId := labels[l].classId) in MergeLabels(df, labels)
    {
      assert rk(labels[l]) == lk(df[i]);
    }
  }

  /** A row survives the split merge once per split line with its image id,
      taking that line's train flag. */
  lemma MergeSplitsMembers(df: seq<Row>, splits: seq<SplitLine>)
    ensures forall r :: r in MergeSplits(df, splits) ==>
              exists i, t :: 0 <= i < |df| && 0 <= t < |splits| && splits[t].imageId == df[i].imageId
                          && r == df[i].(isTrain := splits[t].isTrain)
    ensures forall i, t :: 0 <= i < |df| && 0 <= t < |splits| && splits[t].imageId == df[i].imageId ==>
              df[i].(isTrain := splits[t].isTrain) in MergeSplits(df, splits)
  {
    var lk := (r: Row) => r.imageId;
    var rk := (t: SplitLine) => t.imageId;
    var comb := (r: Row, t: SplitLine) => r.(isTrain := t.isTrain);
    assert MergeSplits(df, splits) == InnerJoin(df, splits, lk, rk, comb);
    InnerJoinMembers(df, splits, lk, rk, comb);
    forall r | r in MergeSplits(df, splits)
      ensures exists i, t :: 0 <= i < |df| && 0 <= t < |splits| && splits[t].imageId == df[i].imageId
                          && r == df[i].(isTrain := splits[t].isTrain)
    {
      var i, t :| 0 <= i < |df| && 0 <= t < |splits| && Combines(r, df[i], splits[t], lk, rk, comb);
    }
    forall i, t | 0 <= i < |df| && 0 <= t < |splits| && splits[t].imageId == df[i].imageId
      ensures df[i].(isTrain := splits[t].isTrain) in MergeSplits(df, splits)
    {
      assert rk(splits[t]) == lk(df[i]);
    }
  }

  /** The merged frame holds exactly one row per (image, label line, split
      line) triple that agree on the image id and whose image file name has
      at least one caption; the row carries that image's caption group, the
      label line's class and the split line's flag. */
  lemma MergedMembers(root: string, images: seq<ImageLine>, items: seq<TextItem>,
                      labels: seq<LabelLine>, splits: seq<SplitLine>)
    ensures forall r :: r in Merged(root, images, items, labels, splits) ==>
              exists i, l, t :: 0 <= i < |images| && 0 <= l < |labels| && 0 <= t < |splits|
                && labels[l].imageId == images[i].imageId && splits[t].imageId == images[i].imageId
                && Basename(images[i].path) in Names(FlattenText(items))
                && r == MergedRow(root, images[i], FlattenText(items), labels[l], splits[t])
    ensures forall i, l, t ::
              (&& 0 <= i < |images| && 0 <= l < |labels| && 0 <= t < |splits|
               && labels[l].imageId == images[i].imageId && splits[t].imageId == images[i].imageId
               && Basename(images[i].path) in Names(FlattenText(items))) ==>
              MergedRow(root, images[i], FlattenText(items), labels[l], splits[t]) in Merged(root, images, items, labels, splits)
  {
    MergedSound(root, images, items, labels, splits);
    MergedComplete(root, images, items, labels, splits);
  }

  /** Every merged row comes from an agreeing (image, label, split) triple. */
  lemma MergedSound(root: string, images: seq<ImageLine>, items: seq<TextItem>,
                    labels: seq<LabelLine>, splits: seq<SplitLine>)
    ensures forall r :: r in Merged(root, images, items, labels, splits) ==>
              exists i, l, t :: 0 <= i < |images| && 0 <= l < |labels| && 0 <= t < |splits|
                && labels[l].imageId == images[i].imageId && splits[t].imageId == images[i].imageId
                && Basename(images[i].path) in Names(FlattenText(items))
                && r == MergedRow(root, images[i], FlattenText(items), labels[l], splits[t])
  {
    var rows := FlattenText(items);
    var df1 := MergeCaptions(ImageRows(root, images), GroupCaptions(rows));
    var df2 := MergeLabels(df1, labels);
    MergeCaptionsSound(root, images, rows);
    MergeLabelsMembers(df1, labels);
    MergeSplitsMembers(df2, splits);
    forall r | r in Merged(root, images, items, labels, splits)
      ensures exists i, l, t :: 0 <= i < |images| && 0 <= l < |labels| && 0 <= t < |splits|
                && labels[l].imageId == images[i].imageId && splits[t].imageId == images[i].imageId
                && Basename(images[i].path) in Names(rows)
                && r == MergedRow(root, images[i], rows, labels[l], splits[t])
    {
      var k2, t :| 0 <= k2 < |df2| && 0 <= t < |splits| && splits[t].imageId == df2[k2].imageId
                   && r == df2[k2].(isTrain := splits[t].isTrain);
      assert df2[k2] in df2;
      var k1, l :| 0 <= k1 < |df1| && 0 <= l < |labels| && labels[l].imageId == df1[k1].imageId
                   && df2[k2] == df1[k1].(classId := labels[l].classId);
      assert df1[k1] in df1;
      var i :| 0 <= i < |images| && Basename(images[i].path) in Names(rows) && df1[k1] == CaptionedRow(root, images[i], rows);
      assert r == MergedRow(root, images[i], rows, labels[l], splits[t]);
    }
  }

  /** Every agreeing (image, label, split) triple gives a merged row. */
  lemma MergedComplete(root: string, images: seq<ImageLine>, items: seq<TextItem>,
                       labels: seq<LabelLine>, splits: seq<SplitLine>)
    ensures forall i, l, t ::
              (&& 0 <= i < |images| && 0 <= l < |labels| && 0 <= t < |splits|
               && labels[l].imageId == images[i].imageId && splits[t].imageId == images[i].imageId
               && Basename(images[i].path) in Names(FlattenText(items))) ==>
              MergedRow(root, images[i], FlattenText(items), labels[l], splits[t]) in Merged(root, images, items, labels, splits)
  {
    var rows := FlattenText(items);
    var df1 := MergeCaptions(ImageRows(root, images), GroupCaptions(rows));
    var df2 := MergeLabels(df1, labels);
    MergeCaptionsComplete(root, images, rows);
    MergeLabelsMembers(df1, labels);
    MergeSplitsMembers(df2, splits);
    forall i, l, t | 0 <= i < |images| && 0 <= l < |labels| && 0 <= t < |splits|
                && labels[l].imageId == images[i].imageId && splits[t].imageId == images[i].imageId
                && Basename(images[i].path) in Names(rows)
      ensures MergedRow(root, images[i], rows, labels[l], splits[t]) in Merged(root, images, items, labels, splits)
    {
      var c1 := CaptionedRow(root, images[i], rows);
      assert c1 in df1;
      var k1 :| 0 <= k1 < |df1| && df1[k1] == c1;
      var c2 := c1.(classId := labels[l].classId);
      assert c2 in df2;
      var k2 :| 0 <= k2 < |df2| && df2[k2] == c2;
      assert c2.(isTrain := splits[t].isTrain) == MergedRow(root, images[i], rows, labels[l], splits[t]);
    }
  }

  /** `row` is caption `c` of item `i`. */
  ghost predicate CaptionRow(items: seq<TextItem>, row: TextRow, i: int, c: int)
  {
    && 0 <= i < |items| && 0 <= c < |items[i].captions|
    && row == TextRow(items[i].filename, items[i].captions[c].english, items[i].captions[c].indo)
  }

  /** `row` is some caption of some item. */
  ghost predicate FromCaptions(items: seq<TextItem>, row: TextRow)
  {
    exists i, c :: CaptionRow(items, row, i, c)
  }

  /** Every row of `df_text` is one caption of one item. */
  lemma {:induction false} FlattenTextRows(items: seq<TextItem>)
    ensures forall k :: 0 <= k < |FlattenText(items)| ==> FromCaptions(items, FlattenText(items)[k])
    decreases |items|
  {
    if |items| > 0 {
      var head, tail := items[0], items[1..];
      FlattenTextRows(tail);
      var out := FlattenText(items);
      var h := ItemRows(head);
      assert out == h + FlattenText(tail);
      forall k | 0 <= k < |out|
        ensures FromCaptions(items, out[k])
      {
        if k < |h| {
          assert CaptionRow(items, out[k], 0, k);
        } else {
          assert out[k] == FlattenText(tail)[k - |h|];
          assert FromCaptions(tail, FlattenText(tail)[k - |h|]);
          var i, c :| CaptionRow(tail, FlattenText(tail)[k - |h|], i, c);
          assert tail[i] == items[i + 1];
          assert CaptionRow(items, out[k], i + 1, c);
        }
      }
    } else {
      assert |FlattenText(items)| == 0;
    }
  }

  /** An image name has a caption group exactly when some item of the
      caption file names it and has at least one caption. */
  lemma CaptionedNames(items: seq<TextItem>, x: string)
    ensures x in Names(FlattenText(items)) <==> exists i :: 0 <= i < |items| && items[i].filename == x && |items[i].captions| > 0
  {
    if x in Names(FlattenText(items)) {
      CaptionedNameFrom(items, x);
    }
    if exists i :: 0 <= i < |items| && items[i].filename == x && |items[i].captions| > 0 {
      var i :| 0 <= i < |items| && items[i].filename == x && |items[i].captions| > 0;
      CaptionedNameOf(items, i);
    }
  }

  /** A name with a caption group comes from an item with captions. */
  lemma CaptionedNameFrom(items: seq<TextItem>, x: string)
    requires x in Names(FlattenText(items))
    ensures exists i :: 0 <= i < |items| && items[i].filename == x && |items[i].captions| > 0
  {
    var rows := FlattenText(items);
    NamesSpec(rows);
    FlattenTextRows(items);
    var k :| 0 <= k < |rows| && rows[k].imageName == x;
    assert FromCaptions(items, rows[k]);
    var i, c :| CaptionRow(items, rows[k], i, c);
  }

  /** An item with captions gives its file name a caption group. */
  lemma CaptionedNameOf(items: seq<TextItem>, i: nat)
    requires i < |items| && |items[i].captions| > 0
    ensures items[i].filename in Names(FlattenText(items))
  {
    var rows := FlattenText(items);
    NamesSpec(rows);
    FlattenTextAt(items, i, 0);
    assert rows[CaptionCount(items[..i])].imageName == items[i].filename;
  }

  /** Every row of the merged frame carries as many English as Indonesian
      captions, since both lists come from the same caption group. */
  lemma MergedCaptionsAligned(root: string, images: seq<ImageLine>, items: seq<TextItem>,
                              labels: seq<LabelLine>, splits: seq<SplitLine>)
    ensures forall r :: r in Merged(root, images, items, labels, splits) ==> |r.enCaptions| == |r.idCaptions|
  {
    MergedMembers(root, images, items, labels, splits);
  }

  /** An error-free `_split_generators` up to the merged frame: with no
      caption at all `df_text` has no `image_name` column and the `groupby`
      raises `KeyError`. */
  function MergedFrame(root: string, images: seq<ImageLine>, items: seq<TextItem>,
                       labels: seq<LabelLine>, splits: seq<SplitLine>): (r: Result<seq<Row>>)
    ensures r.Err? <==> CaptionCount(items) == 0
    ensures r.Err? ==> r.error == KeyError
    ensures r.Ok? ==> r.value == Merged(root, images, items, labels, splits)
  {
    FlattenTextCount(items);
    if |FlattenText(items)| == 0 then Err(KeyError) else Ok(Merged(root, images, items, labels, splits))
  }

  /** The caption file has no caption exactly when every item's caption list
      is empty. */
  lemma {:induction false} CaptionCountZero(items: seq<TextItem>)
    ensures CaptionCount(items) == 0 <==> forall i :: 0 <= i < |items| ==> |items[i].captions| == 0
    decreases |items|
  {
    if |items| > 0 {
      CaptionCountZero(items[1..]);
      assert forall i :: 1 <= i < |items| ==> items[i] == items[1..][i - 1];
    }
  }

  /** The merge fails exactly when no item of the caption file has a caption. */
  lemma MergedFrameFails(root: string, images: seq<ImageLine>, items: seq<TextItem>,
                         labels: seq<LabelLine>, splits: seq<SplitLine>)
    ensures MergedFrame(root, images, items, labels, splits) == Err(KeyError)
        <==> forall i :: 0 <= i < |items| ==> |items[i].captions| == 0
  {
    CaptionCountZero(items);
  }

  /** An image survives the three merges: its file name has captions, and
      some label line and some split line carry its id. */
  predicate Survives(img: ImageLine, rows: seq<TextRow>, labels: seq<LabelLine>, splits: seq<SplitLine>)
  {
    && Basename(img.path) in Names(rows)
    && (exists l :: 0 <= l < |labels| && labels[l].imageId == img.imageId)
    && (exists t :: 0 <= t < |splits| && splits[t].imageId == img.imageId)
  }

  /** The surviving images, in the order of `images.txt`. */
  function Surviving(images: seq<ImageLine>, rows: seq<TextRow>, labels: seq<LabelLine>, splits: seq<SplitLine>): seq<ImageLine>
  {
    if |images| == 0 then []
    else (if Survives(images[0], rows, labels, splits) then [images[0]] else []) + Surviving(images[1..], rows, labels, splits)
  }

  /** No two label lines and no two split lines share an image id. */
  ghost predicate DistinctIds(labels: seq<LabelLine>, splits: seq<SplitLine>)
  {
    && (forall a, b :: 0 <= a < b < |labels| ==> labels[a].imageId != labels[b].imageId)
    && (forall a, b :: 0 <= a < b < |splits| ==> splits[a].imageId != splits[b].imageId)
  }

  lemma ImageRowsAppend(root: string, a: seq<ImageLine>, b: seq<ImageLine>)
    ensures ImageRows(root, a + b) == ImageRows(root, a) + ImageRows(root, b)
  {
    var x, y, z := ImageRows(root, a + b), ImageRows(root, a), ImageRows(root, b);
    forall k | 0 <= k < |x|
      ensures x[k] == (y + z)[k]
    {
      if k < |a| {
        assert (a + b)[k] == a[k];
      } else {
        assert (a + b)[k] == b[k - |a|];
      }
    }
    assert x == y + z;
  }

  lemma MergeCaptionsAppend(a: seq<ImageRow>, b: seq<ImageRow>, gs: seq<CaptionGroup>)
    ensures MergeCaptions(a + b, gs) == MergeCaptions(a, gs) + MergeCaptions(b, gs)
  {
    InnerJoinAppend(a, b, gs, (r: ImageRow) => Basename(r.imagePath), (g: CaptionGroup) => g.imageName,
                    (r: ImageRow, g: CaptionGroup) => Row(r.imageId, r.imagePath, g.enCaptions, g.idCaptions, 0, 0));
  }

  lemma MergeLabelsAppend(a: seq<Row>, b: seq<Row>, labels: seq<LabelLine>)
    ensures MergeLabels(a + b, labels) == MergeLabels(a, labels) + MergeLabels(b, labels)
  {
    InnerJoinAppend(a, b, labels, (r: Row) => r.imageId, (l: LabelLine) => l.imageId,
                    (r: Row, l: LabelLine) => r.(classId := l.classId));
  }

  lemma MergeSplitsAppend(a: seq<Row>, b: seq<Row>, splits: seq<SplitLine>)
    ensures MergeSplits(a + b, splits) == MergeSplits(a, splits) + MergeSplits(b, splits)
  {
    InnerJoinAppend(a, b, splits, (r: Row) => r.imageId, (s: SplitLine) => s.imageId,
                    (r: Row, s: SplitLine) => r.(isTrain := s.isTrain));
  }

  /** The merges treat the images one at a time. */
  lemma MergedFromAppend(root: string, a: seq<ImageLine>, b: seq<ImageLine>, rows: seq<TextRow>,
                         labels: seq<LabelLine>, splits: seq<SplitLine>)
    ensures MergedFrom(root, a + b, rows, labels, splits)
         == MergedFrom(root, a, rows, labels, splits) + MergedFrom(root, b, rows, labels, splits)
  {
    var gs := GroupCaptions(rows);
    var ia, ib := ImageRows(root, a), ImageRows(root, b);
    ImageRowsAppend(root, a, b);
    MergeCaptionsAppend(ia, ib, gs);
    var ca, cb := MergeCaptions(ia, gs), MergeCaptions(ib, gs);
    MergeLabelsAppend(ca, cb, labels);
    MergeSplitsAppend(MergeLabels(ca, labels), MergeLabels(cb, labels), splits);
  }

  /** The caption merge of one image: its captioned row when its file name
      has captions, nothing otherwise. */
  lemma CaptionStageOne(root: string, img: ImageLine, rows: seq<TextRow>)
    ensures Basename(img.path) in Names(rows) ==> MergeCaptions(ImageRows(root, [img]), GroupCaptions(rows)) == [CaptionedRow(root, img, rows)]
    ensures Basename(img.path) !in Names(rows) ==> MergeCaptions(ImageRows(root, [img]), GroupCaptions(rows)) == []
  {
    var gs, names := GroupCaptions(rows), Names(rows);
    var ir := ImageRow(img.imageId, ImagePath(root, img.path));
    assert ImageRows(root, [img]) == [ir];
    ImagePathName(root, img.path);
    var lk := (r: ImageRow) => Basename(r.imagePath);
    var rk := (g: CaptionGroup) => g.imageName;
    var comb := (r: ImageRow, g: CaptionGroup) => Row(r.imageId, r.imagePath, g.enCaptions, g.idCaptions, 0, 0);
    assert MergeCaptions([ir], gs) == InnerJoin([ir], gs, lk, rk, comb);
    NamesSpec(rows);
    GroupCaptionsAt(rows);
    JoinSingle(ir, gs, lk, rk, comb);
    if Basename(img.path) in names {
      var j :| 0 <= j < |names| && names[j] == Basename(img.path);
      assert rk(gs[j]) == lk(ir);
    } else {
      assert forall j :: 0 <= j < |gs| ==> rk(gs[j]) != lk(ir);
    }
  }

  /** The label merge of one row against distinct label ids. */
  lemma LabelStageOne(c: Row, labels: seq<LabelLine>)
    requires forall a, b :: 0 <= a < b < |labels| ==> labels[a].imageId != labels[b].imageId
    ensures forall l :: 0 <= l < |labels| && labels[l].imageId == c.imageId ==>
              MergeLabels([c], labels) == [c.(classId := labels[l].classId)]
    ensures (forall l :: 0 <= l < |labels| ==> labels[l].imageId != c.imageId) ==> MergeLabels([c], labels) == []
  {
    var lk := (r: Row) => r.imageId;
    var rk := (l: LabelLine) => l.imageId;
    var comb := (r: Row, l: LabelLine) => r.(classId := l.classId);
    assert MergeLabels([c], labels) == InnerJoin([c], labels, lk, rk, comb);
    JoinSingle(c, labels, lk, rk, comb);
  }

  /** The split merge of one row against distinct split ids. */
  lemma SplitStageOne(c: Row, splits: seq<SplitLine>)
    requires forall a, b :: 0 <= a < b < |splits| ==> splits[a].imageId != splits[b].imageId
    ensures forall t :: 0 <= t < |splits| && splits[t].imageId == c.imageId ==>
              MergeSplits([c], splits) == [c.(isTrain := splits[t].isTrain)]
    ensures (forall t :: 0 <= t < |splits| ==> splits[t].imageId != c.imageId) ==> MergeSplits([c], splits) == []
  {
    var lk := (r: Row) => r.imageId;
    var rk := (s: SplitLine) => s.imageId;
    var comb := (r: Row, s: SplitLine) => r.(isTrain := s.isTrain);
    assert MergeSplits([c], splits) == InnerJoin([c], splits, lk, rk, comb);
    JoinSingle(c, splits, lk, rk, comb);
  }

  /** One image yields its merged row when it survives and nothing otherwise. */
  lemma MergedOne(root: string, img: ImageLine, rows: seq<TextRow>, labels: seq<LabelLine>, splits: seq<SplitLine>)
    requires DistinctIds(labels, splits)
    ensures !Survives(img, rows, labels, splits) ==> MergedFrom(root, [img], rows, labels, splits) == []
    ensures forall l, t :: (&& 0 <= l < |labels| && 0 <= t < |splits|
                            && labels[l].imageId == img.imageId && splits[t].imageId == img.imageId
                            && Basename(img.path) in Names(rows)) ==>
              MergedFrom(root, [img], rows, labels, splits) == [MergedRow(root, img, rows, labels[l], splits[t])]
  {
    CaptionStageOne(root, img, rows);
    var df1 := MergeCaptions(ImageRows(root, [img]), GroupCaptions(rows));
    if Basename(img.path) in Names(rows) {
      var c := CaptionedRow(root, img, rows);
      LabelStageOne(c, labels);
      if exists l :: 0 <= l < |labels| && labels[l].imageId == img.imageId {
        var l0 :| 0 <= l0 < |labels| && labels[l0].imageId == img.imageId;
        var c2 := c.(classId := labels[l0].classId);
        SplitStageOne(c2, splits);
        forall l, t | && 0 <= l < |labels| && 0 <= t < |splits|
                      && labels[l].imageId == img.imageId && splits[t].imageId == img.imageId
          ensures MergedFrom(root, [img], rows, labels, splits) == [MergedRow(root, img, rows, labels[l], splits[t])]
        {
          assert l == l0;
          assert c2.(isTrain := splits[t].isTrain) == MergedRow(root, img, rows, labels[l], splits[t]);
        }
        if !exists t :: 0 <= t < |splits| && splits[t].imageId == img.imageId {
          assert MergeSplits([c2], splits) == [];
        }
      } else {
        assert MergeLabels(df1, labels) == [];
        assert MergeSplits([], splits) == [];
      }
    } else {
      assert MergeLabels([], labels) == [];
      assert MergeSplits([], splits) == [];
    }
  }

  /** `row` is the row built from `img`, its caption group and any label
      and split line carrying its id. */
  ghost predicate RowFor(root: string, rows: seq<TextRow>, labels: seq<LabelLine>, splits: seq<SplitLine>,
                         row: Row, img: ImageLine)
  {
    forall l, t ::
      (&& 0 <= l < |labels| && 0 <= t < |splits|
       && labels[l].imageId == img.imageId && splits[t].imageId == img.imageId) ==>
      row == MergedRow(root, img, rows, labels[l], splits[t])
  }

  /** `m` holds one row per image of `s`, in order. */
  ghost predicate RowsFor(root: string, rows: seq<TextRow>, labels: seq<LabelLine>, splits: seq<SplitLine>,
                          m: seq<Row>, s: seq<ImageLine>)
  {
    && |m| == |s|
    && forall k :: 0 <= k < |s| ==> RowFor(root, rows, labels, splits, m[k], s[k])
  }

  /** Against distinct ids, an image's merged row is the row for any of its
      label and split lines. */
  lemma RowForOne(root: string, rows: seq<TextRow>, labels: seq<LabelLine>, splits: seq<SplitLine>,
                  img: ImageLine, l0: nat, t0: nat)
    requires DistinctIds(labels, splits)
    requires l0 < |labels| && labels[l0].imageId == img.imageId
    requires t0 < |splits| && splits[t0].imageId == img.imageId
    ensures RowFor(root, rows, labels, splits, MergedRow(root, img, rows, labels[l0], splits[t0]), img)
  {
    forall l, t | && 0 <= l < |labels| && 0 <= t < |splits|
                  && labels[l].imageId == img.imageId && splits[t].imageId == img.imageId
      ensures l == l0 && t == t0
    {
    }
  }

  /** Prepending an image and its row keeps the pairing. */
  lemma RowsForCons(root: string, rows: seq<TextRow>, labels: seq<LabelLine>, splits: seq<SplitLine>,
                    row: Row, img: ImageLine, m: seq<Row>, s: seq<ImageLine>)
    requires RowFor(root, rows, labels, splits, row, img)
    requires RowsFor(root, rows, labels, splits, m, s)
    ensures RowsFor(root, rows, labels, splits, [row] + m, [img] + s)
  {
    var m', s' := [row] + m, [img] + s;
    forall k | 0 <= k < |s'|
      ensures RowFor(root, rows, labels, splits, m'[k], s'[k])
    {
      if k > 0 {
        assert m'[k] == m[k - 1] && s'[k] == s[k - 1];
      }
    }
  }

  /** With distinct ids in the label and split files, the merged frame holds
      one row per surviving image, in the order of `images.txt`. */
  lemma {:induction false} MergedFromCount(root: string, images: seq<ImageLine>, rows: seq<TextRow>,
                                           labels: seq<LabelLine>, splits: seq<SplitLine>)
    requires DistinctIds(labels, splits)
    ensures RowsFor(root, rows, labels, splits, MergedFrom(root, images, rows, labels, splits), Surviving(images, rows, labels, splits))
    decreases |images|
  {
    if |images| == 0 {
      assert ImageRows(root, images) == [];
      assert MergedFrom(root, images, rows, labels, splits) == [];
    } else {
      var head, tail := images[0], images[1..];
      assert [head] + tail == images;
      MergedFromAppend(root, [head], tail, rows, labels, splits);
      MergedOne(root, head, rows, labels, splits);
      MergedFromCount(root, tail, rows, labels, splits);
      var st, mt := Surviving(tail, rows, labels, splits), MergedFrom(root, tail, rows, labels, splits);
      if Survives(head, rows, labels, splits) {
        var l0 :| 0 <= l0 < |labels| && labels[l0].imageId == head.imageId;
        var t0 :| 0 <= t0 < |splits| && splits[t0].imageId == head.imageId;
        assert MergedFrom(root, images, rows, labels, splits) == [MergedRow(root, head, rows, labels[l0], splits[t0])] + mt;
        assert Surviving(images, rows, labels, splits) == [head] + st;
        RowForOne(root, rows, labels, splits, head, l0, t0);
        RowsForCons(root, rows, labels, splits, MergedRow(root, head, rows, labels[l0], splits[t0]), head, mt, st);
      } else {
        assert MergedFrom(root, images, rows, labels, splits) == mt;
      }
    }
  }

  lemma MergedFromLength(root: string, images: seq<ImageLine>, rows: seq<TextRow>,
                         labels: seq<LabelLine>, splits: seq<SplitLine>)
    ensures DistinctIds(labels, splits) ==>
              |MergedFrom(root, images, rows, labels, splits)| == |Surviving(images, rows, labels, splits)|
  {
    if DistinctIds(labels, splits) {
      MergedFromCount(root, images, rows, labels, splits);
    }
  }

  /** With distinct ids in the label and split files, the merged frame holds
      exactly one row per image that has captions, a label line and a split
      line, in the order of `images.txt`; row `k` carries the `k`-th such
      image's caption group, class and train flag. */
  lemma MergedCount(root: string, images: seq<ImageLine>, items: seq<TextItem>,
                    labels: seq<LabelLine>, splits: seq<SplitLine>)
    requires DistinctIds(labels, splits)
    ensures |Merged(root, images, items, labels, splits)| == |Surviving(images, FlattenText(items), labels, splits)|
    ensures forall k, l, t ::
              (&& 0 <= k < |Surviving(images, FlattenText(items), labels, splits)| && 0 <= l < |labels| && 0 <= t < |splits|
               && labels[l].imageId == Surviving(images, FlattenText(items), labels, splits)[k].imageId
               && splits[t].imageId == Surviving(images, FlattenText(items), labels, splits)[k].imageId) ==>
              Merged(root, images, items, labels, splits)[k]
                == MergedRow(root, Surviving(images, FlattenText(items), labels, splits)[k], FlattenText(items), labels[l], splits[t])
  {
    assert Merged(root, images, items, labels, splits) == MergedFrom(root, images, FlattenText(items), labels, splits);
    MergedFromCount(root, images, FlattenText(items), labels, splits);
  }

  // ---------------------------------------------------------------------
  // Train/test partition
  // ---------------------------------------------------------------------

  /** `df[df['is_train'] == flag]`: the rows whose flag equals `flag`, in
      order, each with its position in `df` as its index label. */
  function Select(df: seq<Row>, flag: int): seq<(int, Row)>
  {
    if |df| == 0 then []
    else
      var n := |df| - 1;
      Select(df[..n], flag) + (if df[n].isTrain == flag then [(n, df[n])] else [])
  }

  /** The selection holds exactly the rows with the flag, each labelled by
      its position in `df`, with labels strictly increasing. */
  lemma {:induction false} SelectSpec(df: seq<Row>, flag: int)
    ensures forall j :: 0 <= j < |Select(df, flag)| ==>
              0 <= Select(df, flag)[j].0 < |df| && Select(df, flag)[j].1 == df[Select(df, flag)[j].0]
              && Select(df, flag)[j].1.isTrain == flag
    ensures forall a, b :: 0 <= a < b < |Select(df, flag)| ==> Select(df, flag)[a].0 < Select(df, flag)[b].0
    ensures forall k :: 0 <= k < |df| && df[k].isTrain == flag ==> (k, df[k]) in Select(df, flag)
  {
    SelectSound(df, flag);
    SelectIncreasing(df, flag);
    SelectComplete(df, flag);
  }

  /** Each selected row carries the flag and its own position in `df`. */
  lemma {:induction false} SelectSound(df: seq<Row>, flag: int)
    ensures forall j :: 0 <= j < |Select(df, flag)| ==>
              0 <= Select(df, flag)[j].0 < |df| && Select(df, flag)[j].1 == df[Select(df, flag)[j].0]
              && Select(df, flag)[j].1.isTrain == flag
    decreases |df|
  {
    if |df| > 0 {
      var n := |df| - 1;
      var init := df[..n];
      SelectSound(init, flag);
      var out := Select(df, flag);
      var pre := Select(init, flag);
      forall j | 0 <= j < |out|
        ensures 0 <= out[j].0 < |df| && out[j].1 == df[out[j].0] && out[j].1.isTrain == flag
      {
        if j < |pre| {
          assert out[j] == pre[j];
          assert init[pre[j].0] == df[pre[j].0];
        }
      }
    }
  }

  /** The selected labels strictly increase. */
  lemma {:induction false} SelectIncreasing(df: seq<Row>, flag: int)
    ensures forall a, b :: 0 <= a < b < |Select(df, flag)| ==> Select(df, flag)[a].0 < Select(df, flag)[b].0
    decreases |df|
  {
    if |df| > 0 {
      var n := |df| - 1;
      var init := df[..n];
      SelectIncreasing(init, flag);
      SelectSound(init, flag);
      var out := Select(df, flag);
      var pre := Select(init, flag);
      forall a, b | 0 <= a < b < |out|
        ensures out[a].0 < out[b].0
      {
        if b < |pre| {
          assert out[a] == pre[a] && out[b] == pre[b];
        } else {
          assert out[a] == pre[a];
        }
      }
    }
  }

  /** Every row with the flag is selected under its own position. */
  lemma {:induction false} SelectComplete(df: seq<Row>, flag: int)
    ensures forall k :: 0 <= k < |df| && df[k].isTrain == flag ==> (k, df[k]) in Select(df, flag)
    decreases |df|
  {
    if |df| > 0 {
      var n := |df| - 1;
      var init := df[..n];
      SelectComplete(init, flag);
      var out := Select(df, flag);
      var pre := Select(init, flag);
      assert out[..|pre|] == pre;
      forall k | 0 <= k < |df| && df[k].isTrain == flag
        ensures (k, df[k]) in out
      {
        if k < n {
          assert init[k] == df[k];
          assert (k, init[k]) in pre;
        } else {
          assert out[|out| - 1] == (k, df[k]);
        }
      }
    }
  }

  /** No row goes to both splits, and a row whose flag is neither 0 nor 1
      goes to neither. */
  lemma PartitionDisjoint(df: seq<Row>)
    ensures forall p, q :: p in Select(df, 1) && q in Select(df, 0) ==> p.0 != q.0
    ensures forall p :: p in Select(df, 1) || p in Select(df, 0) ==> p.1.isTrain == 0 || p.1.isTrain == 1
  {
    SelectSpec(df, 1);
    SelectSpec(df, 0);
  }

  datatype SplitGenerator = SplitGenerator(name: string, data: seq<(int, Row)>, split: string)

  /** `_split_generators`: the train split holds the merged rows flagged 1
      and the test split those flagged 0. */
  function SplitGenerators(df: seq<Row>): (gens: seq<SplitGenerator>)
    ensures |gens| == 2 && gens[0].name == "train" && gens[1].name == "test"
  {
    [SplitGenerator("train", Select(df, 1), "train"), SplitGenerator("test", Select(df, 0), "test")]
  }

  /** The train split holds every merged row flagged 1 and the test split
      every row flagged 0, each under its position in the merged frame. */
  lemma SplitGeneratorsCover(df: seq<Row>)
    ensures forall k :: 0 <= k < |df| && df[k].isTrain == 1 ==> (k, df[k]) in SplitGenerators(df)[0].data
    ensures forall k :: 0 <= k < |df| && df[k].isTrain == 0 ==> (k, df[k]) in SplitGenerators(df)[1].data
    ensures forall p :: p in SplitGenerators(df)[0].data ==> 0 <= p.0 < |df| && df[p.0] == p.1 && p.1.isTrain == 1
    ensures forall p :: p in SplitGenerators(df)[1].data ==> 0 <= p.0 < |df| && df[p.0] == p.1 && p.1.isTrain == 0
  {
    SelectSpec(df, 1);
    SelectSpec(df, 0);
  }

  // ---------------------------------------------------------------------
  // Example generation
  // ---------------------------------------------------------------------

  /** `IMAGE_CLASS[k]` for a class table whose entry `k - 1` names class
      `k`; `None` is the `KeyError` for any other key. */
  function Lookup(classes: seq<string>, k: int): (r: Option<string>)
    ensures r.Some? <==> 1 <= k <= |classes|
    ensures r.Some? ==> r.value == classes[k - 1]
  {
    if 1 <= k <= |classes| then Some(classes[k - 1]) else None
  }

  datatype Example =
    | SourceExample(imageId: int, classId: int, imagePath: string, className: string, captions: seq<CaptionPair>)
    | UnifiedExample(example: ImageTextExample<string>)

  /** The source-schema branch: one record per row, keyed by the row's index
      label. The class lookup comes first in the record and raises
      `KeyError`; reading an Indonesian caption past its list raises
      `IndexError`. */
  function GenSource(classes: seq<string>, data: seq<(int, Row)>): (r: Run<Example>)
    ensures |r.yielded| <= |data|
    ensures forall j :: 0 <= j < |r.yielded| ==> r.yielded[j].0 == data[j].0 && r.yielded[j].1.SourceExample?
    ensures r.raised.Some? ==> r.raised.value == KeyError || r.raised.value == IndexError
  {
    if |data| == 0 then Run([], None)
    else
      var (key, row) := data[0];
      match Lookup(classes, row.classId)
      case None => Run([], Some(KeyError))
      case Some(name) =>
        if |row.idCaptions| < |row.enCaptions| then Run([], Some(IndexError))
        else
          var captions := seq(|row.enCaptions|, c requires 0 <= c < |row.enCaptions| =>
                            CaptionPair(row.enCaptions[c], row.idCaptions[c]));
          Cons((key, SourceExample(row.imageId, row.classId, row.imagePath, name, captions)), GenSource(classes, data[1..]))
  }

  /** `e` is the source record of `row`. */
  ghost predicate SourceRecord(classes: seq<string>, row: Row, e: Example)
  {
    && e.SourceExample? && e.imageId == row.imageId && e.classId == row.classId && e.imagePath == row.imagePath
    && Lookup(classes, row.classId) == Some(e.className)
    && |e.captions| == |row.enCaptions| <= |row.idCaptions|
    && forall c :: 0 <= c < |e.captions| ==> e.captions[c] == CaptionPair(row.enCaptions[c], row.idCaptions[c])
  }

  /** The row can be turned into a source record. */
  predicate SourceReady(classes: seq<string>, row: Row)
  {
    Lookup(classes, row.classId).Some? && |row.idCaptions| >= |row.enCaptions|
  }

  /** The source branch yields, in order and under their index labels, the
      records of the leading rows that can be turned into records, and stops
      at the first row that cannot, with `KeyError` for an unknown class and
      otherwise `IndexError`. */
  lemma {:induction false} GenSourceSpec(classes: seq<string>, data: seq<(int, Row)>)
    ensures var r := GenSource(classes, data);
      && |r.yielded| <= |data|
      && (forall j :: 0 <= j < |r.yielded| ==>
            r.yielded[j].0 == data[j].0 && SourceReady(classes, data[j].1) && SourceRecord(classes, data[j].1, r.yielded[j].1))
      && (r.raised.None? ==> |r.yielded| == |data|)
      && (r.raised.Some? ==>
            && |r.yielded| < |data| && !SourceReady(classes, data[|r.yielded|].1)
            && r.raised.value == (if Lookup(classes, data[|r.yielded|].1.classId).None? then KeyError else IndexError))
    decreases |data|
  {
    if |data| > 0 {
      GenSourceSpec(classes, data[1..]);
      var r := GenSource(classes, data);
      var rest := GenSource(classes, data[1..]);
      if SourceReady(classes, data[0].1) {
        forall j | 0 <= j < |r.yielded|
          ensures r.yielded[j].0 == data[j].0 && SourceReady(classes, data[j].1) && SourceRecord(classes, data[j].1, r.yielded[j].1)
        {
          if j > 0 {
            assert r.yielded[j] == rest.yielded[j - 1];
            assert data[j] == data[1..][j - 1];
          }
        }
      }
    }
  }

  /** Source keys are the rows' positions in the merged frame, not
      renumbered per split: they are strictly increasing, and a split whose
      first selected row is not the frame's first row starts above 0. */
  lemma SourceKeysArePositions(classes: seq<string>, df: seq<Row>, flag: int)
    ensures var r := GenSource(classes, Select(df, flag));
      && (forall j :: 0 <= j < |r.yielded| ==> 0 <= r.yielded[j].0 < |df| && df[r.yielded[j].0].isTrain == flag)
      && (forall a, b :: 0 <= a < b < |r.yielded| ==> r.yielded[a].0 < r.yielded[b].0)
      && (|r.yielded| > 0 && df[0].isTrain != flag ==> r.yielded[0].0 > 0)
  {
    SelectSpec(df, flag);
    GenSourceSpec(classes, Select(df, flag));
  }

  /** The records of one row, from caption `i` on, keyed from `key`. Each
      record reads the Indonesian caption, then the English one (raising
      `IndexError` past its end), then the class name (raising `KeyError`). */
  function RowRecords(classes: seq<string>, row: Row, i: nat, key: nat): Run<Example>
    decreases |row.idCaptions| - i
  {
    if i >= |row.idCaptions| then Run([], None)
    else if i >= |row.enCaptions| then Run([], Some(IndexError))
    else
      match Lookup(classes, row.classId)
      case None => Run([], Some(KeyError))
      case Some(name) =>
        var e := ImageTextExample(NatToString(key), [row.imagePath], Some(row.idCaptions[i]), Some(row.enCaptions[i]), [name]);
        Cons((key, UnifiedExample(e)), RowRecords(classes, row, i + 1, key + 1))
  }

  /** A row's records stop only on `KeyError` or `IndexError`. */
  lemma {:induction false} RowRecordsErrors(classes: seq<string>, row: Row, i: nat, key: nat)
    ensures RowRecords(classes, row, i, key).raised.Some? ==>
              RowRecords(classes, row, i, key).raised.value == KeyError || RowRecords(classes, row, i, key).raised.value == IndexError
    decreases |row.idCaptions| - i
  {
    if i < |row.idCaptions| && i < |row.enCaptions| && Lookup(classes, row.classId).Some? {
      RowRecordsErrors(classes, row, i + 1, key + 1);
    }
  }

  /** `e` is the unified record of caption `c` of `row` under key `key`. */
  ghost predicate UnifiedRecord(classes: seq<string>, row: Row, c: int, key: nat, e: Example)
  {
    && 0 <= c < |row.idCaptions| && c < |row.enCaptions| && Lookup(classes, row.classId).Some?
    && e == UnifiedExample(ImageTextExample(NatToString(key), [row.imagePath], Some(row.idCaptions[c]),
                                            Some(row.enCaptions[c]), [Lookup(classes, row.classId).value]))
  }

  lemma UnifiedRecordId(classes: seq<string>, row: Row, c: int, key: nat, e: Example)
    requires UnifiedRecord(classes, row, c, key, e)
    ensures e.UnifiedExample? && e.example.id == NatToString(key)
  {
  }

  /** A row whose class is known and whose English list is at least as long
      as its Indonesian one yields one record per remaining Indonesian
      caption, with consecutive keys; otherwise it stops with the error the
      first bad caption raises. */
  lemma {:induction false} RowRecordsSpec(classes: seq<string>, row: Row, i: nat, key: nat)
    requires i <= |row.idCaptions|
    ensures var r := RowRecords(classes, row, i, key);
      && |r.yielded| <= |row.idCaptions| - i
      && (forall j :: 0 <= j < |r.yielded| ==>
            r.yielded[j].0 == key + j && UnifiedRecord(classes, row, i + j, key + j, r.yielded[j].1))
      && (r.raised.None? <==>
            i == |row.idCaptions| || (Lookup(classes, row.classId).Some? && |row.enCaptions| >= |row.idCaptions|))
      && (r.raised.None? ==> |r.yielded| == |row.idCaptions| - i)
      && (r.raised == Some(KeyError) <==>
            i < |row.idCaptions| && i < |row.enCaptions| && Lookup(classes, row.classId).None?)
      && (r.raised.Some? ==> r.raised == Some(KeyError) || r.raised == Some(IndexError))
  {
    RowRecordsOutcome(classes, row, i, key);
    RowRecordsAt(classes, row, i, key);
  }

  /** How a row's records end: the count, and which error stops them. */
  lemma {:induction false} RowRecordsOutcome(classes: seq<string>, row: Row, i: nat, key: nat)
    requires i <= |row.idCaptions|
    ensures var r := RowRecords(classes, row, i, key);
      && |r.yielded| <= |row.idCaptions| - i
      && (r.raised.None? <==>
            i == |row.idCaptions| || (Lookup(classes, row.classId).Some? && |row.enCaptions| >= |row.idCaptions|))
      && (r.raised.None? ==> |r.yielded| == |row.idCaptions| - i)
      && (r.raised == Some(KeyError) <==>
            i < |row.idCaptions| && i < |row.enCaptions| && Lookup(classes, row.classId).None?)
      && (r.raised.Some? ==> r.raised == Some(KeyError) || r.raised == Some(IndexError))
    decreases |row.idCaptions| - i
  {
    if i < |row.idCaptions| && i < |row.enCaptions| && Lookup(classes, row.classId).Some? {
      RowRecordsOutcome(classes, row, i + 1, key + 1);
    }
  }

  /** Record `j` of a row is caption `i + j` under key `key + j`. */
  lemma {:induction false} RowRecordsAt(classes: seq<string>, row: Row, i: nat, key: nat)
    requires i <= |row.idCaptions|
    ensures forall j :: 0 <= j < |RowRecords(classes, row, i, key).yielded| ==>
      RowRecords(classes, row, i, key).yielded[j].0 == key + j &&
      UnifiedRecord(classes, row, i + j, key + j, RowRecords(classes, row, i, key).yielded[j].1)
    decreases |row.idCaptions| - i
  {
    if i < |row.idCaptions| && i < |row.enCaptions| && Lookup(classes, row.classId).Some? {
      RowRecordsAt(classes, row, i + 1, key + 1);
      var r := RowRecords(classes, row, i, key);
      var rest := RowRecords(classes, row, i + 1, key + 1);
      var e := ImageTextExample(NatToString(key), [row.imagePath], Some(row.idCaptions[i]), Some(row.enCaptions[i]),
                                [Lookup(classes, row.classId).value]);
      assert r == Cons((key, UnifiedExample(e)), rest);
      forall j | 0 <= j < |r.yielded|
        ensures r.yielded[j].0 == key + j && UnifiedRecord(classes, row, i + j, key + j, r.yielded[j].1)
      {
        if j == 0 {
          assert r.yielded[0] == (key, UnifiedExample(e));
        } else {
          assert r.yielded[j] == rest.yielded[j - 1];
        }
      }
    }
  }

  /** The unified branch: the records of every row in order, keys counting
      up from `key` across rows. */
  function GenImText(classes: seq<string>, data: seq<(int, Row)>, key: nat): (r: Run<Example>)
    ensures r.raised.Some? ==> r.raised.value == KeyError || r.raised.value == IndexError
    decreases |data|
  {
    if |data| == 0 then Run([], None)
    else
      var h := RowRecords(classes, data[0].1, 0, key);
      RowRecordsErrors(classes, data[0].1, 0, key);
      if h.raised.Some? then h
      else
        var rest := GenImText(classes, data[1..], key + |h.yielded|);
        Run(h.yielded + rest.yielded, rest.raised)
  }

  /** The number of Indonesian captions over all rows. */
  function CaptionTotal(data: seq<(int, Row)>): nat
  {
    if |data| == 0 then 0 else |data[0].1.idCaptions| + CaptionTotal(data[1..])
  }

  /** Unified keys are consecutive from `key`, never more than one record
      per Indonesian caption, and a run that ends without an error yields
      one record per Indonesian caption. */
  lemma {:induction false} GenImTextKeys(classes: seq<string>, data: seq<(int, Row)>, key: nat)
    ensures var r := GenImText(classes, data, key);
      && |r.yielded| <= CaptionTotal(data)
      && (forall j :: 0 <= j < |r.yielded| ==>
            r.yielded[j].0 == key + j && r.yielded[j].1.UnifiedExample? && r.yielded[j].1.example.id == NatToString(key + j))
      && (r.raised.None? ==> |r.yielded| == CaptionTotal(data))
  {
    GenImTextCount(classes, data, key);
    GenImTextIds(classes, data, key);
  }

  lemma {:induction false} GenImTextCount(classes: seq<string>, data: seq<(int, Row)>, key: nat)
    ensures var r := GenImText(classes, data, key);
      && |r.yielded| <= CaptionTotal(data)
      && (r.raised.None? ==> |r.yielded| == CaptionTotal(data))
    decreases |data|
  {
    if |data| > 0 {
      var h := RowRecords(classes, data[0].1, 0, key);
      RowRecordsOutcome(classes, data[0].1, 0, key);
      if h.raised.None? {
        GenImTextCount(classes, data[1..], key + |h.yielded|);
      }
    }
  }

  /** Record `j` of `ys` is a unified record keyed `key + j` with id
      `str(key + j)`. */
  predicate KeyedFrom(ys: seq<(int, Example)>, key: nat)
  {
    forall j :: 0 <= j < |ys| ==>
      ys[j].0 == key + j && ys[j].1.UnifiedExample? && ys[j].1.example.id == NatToString(key + j)
  }

  lemma KeyedFromConcat(a: seq<(int, Example)>, b: seq<(int, Example)>, key: nat)
    requires KeyedFrom(a, key) && KeyedFrom(b, key + |a|)
    ensures KeyedFrom(a + b, key)
  {
    forall j | 0 <= j < |a + b|
      ensures (a + b)[j].0 == key + j && (a + b)[j].1.UnifiedExample? && (a + b)[j].1.example.id == NatToString(key + j)
    {
      if j >= |a| {
        assert (a + b)[j] == b[j - |a|];
      }
    }
  }

  lemma RowRecordsKeyed(classes: seq<string>, row: Row, key: nat)
    ensures KeyedFrom(RowRecords(classes, row, 0, key).yielded, key)
  {
    var h := RowRecords(classes, row, 0, key).yielded;
    RowRecordsAt(classes, row, 0, key);
    forall j | 0 <= j < |h|
      ensures h[j].0 == key + j && h[j].1.UnifiedExample? && h[j].1.example.id == NatToString(key + j)
    {
      UnifiedRecordId(classes, row, j, key + j, h[j].1);
    }
  }

  lemma {:induction false} GenImTextIds(classes: seq<string>, data: seq<(int, Row)>, key: nat)
    ensures KeyedFrom(GenImText(classes, data, key).yielded, key)
    decreases |data|
  {
    if |data| > 0 {
      var h := RowRecords(classes, data[0].1, 0, key);
      RowRecordsKeyed(classes, data[0].1, key);
      if h.raised.Some? {
        assert GenImText(classes, data, key) == h;
      } else {
        var rest := GenImText(classes, data[1..], key + |h.yielded|);
        assert GenImText(classes, data, key).yielded == h.yielded + rest.yielded;
        GenImTextIds(classes, data[1..], key + |h.yielded|);
        KeyedFromConcat(h.yielded, rest.yielded, key);
      }
    }
  }

  /** Every row has a class in the table and as many English as
      Indonesian captions. */
  predicate RowsReady(classes: seq<string>, data: seq<(int, Row)>)
  {
    forall m :: 0 <= m < |data| ==> RowReady(classes, data[m].1)
  }

  /** The row's class is in the table and its caption lists are aligned. */
  predicate RowReady(classes: seq<string>, row: Row)
  {
    Lookup(classes, row.classId).Some? && |row.enCaptions| == |row.idCaptions|
  }

  /** When every row is ready, the unified branch completes, and caption
      `c` of the `k`-th row becomes the record after those of the rows
      before it. */
  lemma {:induction false} GenImTextFanOut(classes: seq<string>, data: seq<(int, Row)>, key: nat, k: nat, c: nat)
    requires RowsReady(classes, data)
    requires k < |data| && c < |data[k].1.idCaptions|
    ensures GenImText(classes, data, key).raised.None?
    ensures CaptionTotal(data[..k]) + c < |GenImText(classes, data, key).yielded|
    ensures UnifiedRecord(classes, data[k].1, c, key + CaptionTotal(data[..k]) + c,
                          GenImText(classes, data, key).yielded[CaptionTotal(data[..k]) + c].1)
    decreases |data|
  {
    if k == 0 {
      GenImTextFanOutFirst(classes, data, key, k, c);
    } else {
      GenImTextTailReady(classes, data);
      assert data[1..][k - 1] == data[k];
      GenImTextFanOut(classes, data[1..], key + |data[0].1.idCaptions|, k - 1, c);
      assert RowReady(classes, data[0].1);
      GenImTextFanOutStep(classes, data, key, k, c);
    }
  }

  /** The base of `GenImTextFanOut`: the first row's captions lead the run. */
  lemma GenImTextFanOutFirst(classes: seq<string>, data: seq<(int, Row)>, key: nat, k: nat, c: nat)
    requires RowsReady(classes, data)
    requires k == 0 && k < |data| && c < |data[k].1.idCaptions|
    ensures GenImText(classes, data, key).raised.None?
    ensures CaptionTotal(data[..k]) + c < |GenImText(classes, data, key).yielded|
    ensures UnifiedRecord(classes, data[k].1, c, key + CaptionTotal(data[..k]) + c,
                          GenImText(classes, data, key).yielded[CaptionTotal(data[..k]) + c].1)
  {
    GenImTextHead(classes, data, key, c);
    assert data[..k] == [];
    assert CaptionTotal(data[..k]) == 0;
    UnifiedRecordMoved(classes, data[0].1, data[k].1, c, key + c, key + CaptionTotal(data[..k]) + c,
                       GenImText(classes, data, key).yielded[c].1,
                       GenImText(classes, data, key).yielded[CaptionTotal(data[..k]) + c].1);
  }

  /** The step of `GenImTextFanOut`: caption `c` of row `k` sits in the run
      over the rows after the first, shifted by the first row's records. */
  lemma GenImTextFanOutStep(classes: seq<string>, data: seq<(int, Row)>, key: nat, k: nat, c: nat)
    requires 0 < k < |data| && RowReady(classes, data[0].1) && c < |data[k].1.idCaptions|
    requires GenImText(classes, data[1..], key + |data[0].1.idCaptions|).raised.None?
    requires CaptionTotal(data[1..][..k - 1]) + c < |GenImText(classes, data[1..], key + |data[0].1.idCaptions|).yielded|
    requires UnifiedRecord(classes, data[1..][k - 1].1, c,
                           key + |data[0].1.idCaptions| + CaptionTotal(data[1..][..k - 1]) + c,
                           GenImText(classes, data[1..], key + |data[0].1.idCaptions|).yielded[CaptionTotal(data[1..][..k - 1]) + c].1)
    ensures GenImText(classes, data, key).raised.None?
    ensures CaptionTotal(data[..k]) + c < |GenImText(classes, data, key).yielded|
    ensures UnifiedRecord(classes, data[k].1, c, key + CaptionTotal(data[..k]) + c,
                          GenImText(classes, data, key).yielded[CaptionTotal(data[..k]) + c].1)
  {
    CaptionTotalPrefix(data, k);
    GenImTextShift(classes, data, key, CaptionTotal(data[1..][..k - 1]) + c);
    UnifiedRecordMoved(classes, data[1..][k - 1].1, data[k].1, c,
                       key + |data[0].1.idCaptions| + CaptionTotal(data[1..][..k - 1]) + c,
                       key + CaptionTotal(data[..k]) + c,
                       GenImText(classes, data[1..], key + |data[0].1.idCaptions|).yielded[CaptionTotal(data[1..][..k - 1]) + c].1,
                       GenImText(classes, data, key).yielded[CaptionTotal(data[..k]) + c].1);
  }

  lemma UnifiedRecordMoved(classes: seq<string>, row: Row, row': Row, c: int, key: nat, key': nat, e: Example, e': Example)
    requires UnifiedRecord(classes, row, c, key, e) && row == row' && key == key' && e == e'
    ensures UnifiedRecord(classes, row', c, key', e')
  {
  }

  /** Record `x` of the run over the remaining rows is record `n + x` of
      the whole run, where `n` is the first row's caption count. */
  lemma GenImTextShift(classes: seq<string>, data: seq<(int, Row)>, key: nat, x: nat)
    requires 0 < |data| && RowReady(classes, data[0].1)
    requires x < |GenImText(classes, data[1..], key + |data[0].1.idCaptions|).yielded|
    ensures GenImText(classes, data, key).raised == GenImText(classes, data[1..], key + |data[0].1.idCaptions|).raised
    ensures |data[0].1.idCaptions| + x < |GenImText(classes, data, key).yielded|
    ensures GenImText(classes, data, key).yielded[|data[0].1.idCaptions| + x]
         == GenImText(classes, data[1..], key + |data[0].1.idCaptions|).yielded[x]
  {
    GenImTextTail(classes, data, key);
    ConcatIndexRight(RowRecords(classes, data[0].1, 0, key).yielded,
                     GenImText(classes, data[1..], key + |data[0].1.idCaptions|).yielded, x);
  }

  lemma GenImTextTailReady(classes: seq<string>, data: seq<(int, Row)>)
    requires 0 < |data| && RowsReady(classes, data)
    ensures RowsReady(classes, data[1..])
  {
    assert forall m :: 0 <= m < |data[1..]| ==> data[1..][m] == data[m + 1];
  }

  /** The captions before row `k` are the first row's and those of the
      rows between. */
  lemma CaptionTotalPrefix(data: seq<(int, Row)>, k: nat)
    requires 0 < k <= |data|
    ensures CaptionTotal(data[..k]) == |data[0].1.idCaptions| + CaptionTotal(data[1..][..k - 1])
  {
    assert data[..k][1..] == data[1..][..k - 1];
  }

  lemma ConcatIndexRight<T>(a: seq<T>, b: seq<T>, x: nat)
    requires x < |b|
    ensures (a + b)[|a| + x] == b[x]
  {
  }

  /** The first row's captions come first, with keys from `key`. */
  lemma GenImTextHead(classes: seq<string>, data: seq<(int, Row)>, key: nat, c: nat)
    requires RowsReady(classes, data)
    requires 0 < |data| && c < |data[0].1.idCaptions|
    ensures GenImText(classes, data, key).raised.None?
    ensures c < |GenImText(classes, data, key).yielded|
    ensures UnifiedRecord(classes, data[0].1, c, key + c, GenImText(classes, data, key).yielded[c].1)
  {
    var h := RowRecords(classes, data[0].1, 0, key);
    GenImTextTail(classes, data, key);
    RowRecordsAt(classes, data[0].1, 0, key);
    GenImTextCompletes(classes, data, key);
    var r := GenImText(classes, data, key);
    assert r.yielded[c] == h.yielded[c];
  }

  /** When the first row is ready, the run is that row's records followed
      by the run over the remaining rows, keyed from where the first row
      stopped. */
  lemma GenImTextTail(classes: seq<string>, data: seq<(int, Row)>, key: nat)
    requires 0 < |data| && RowReady(classes, data[0].1)
    ensures RowRecords(classes, data[0].1, 0, key).raised.None?
    ensures |RowRecords(classes, data[0].1, 0, key).yielded| == |data[0].1.idCaptions|
    ensures GenImText(classes, data, key)
         == Run(RowRecords(classes, data[0].1, 0, key).yielded
                  + GenImText(classes, data[1..], key + |data[0].1.idCaptions|).yielded,
                GenImText(classes, data[1..], key + |data[0].1.idCaptions|).raised)
  {
    RowRecordsOutcome(classes, data[0].1, 0, key);
  }

  /** Distinct positions in a run get distinct ids. */
  lemma UnifiedIdsDistinct(classes: seq<string>, data: seq<(int, Row)>, key: nat, a: nat, b: nat)
    requires a < b < |GenImText(classes, data, key).yielded|
    ensures var y := GenImText(classes, data, key).yielded;
      y[a].1.UnifiedExample? && y[b].1.UnifiedExample? && y[a].1.example.id != y[b].1.example.id
  {
    var y := GenImText(classes, data, key).yielded;
    GenImTextKeys(classes, data, key);
    assert y[a].1.example.id == NatToString(key + a);
    assert y[b].1.example.id == NatToString(key + b);
    NatToStringInjective(key + a, key + b);
  }

  /** `_generate_examples`: the source branch, the unified branch with keys
      from 0, and no records for any other schema. */
  function Generate(schema: string, classes: seq<string>, data: seq<(int, Row)>): (r: Run<Example>)
    ensures schema != SourceSchema && schema != ImTextSchema ==> r == Run([], None)
  {
    if schema == SourceSchema then GenSource(classes, data)
    else if schema == ImTextSchema then GenImText(classes, data, 0)
    else Run([], None)
  }

  /** Over either split of the merged frame, both branches complete exactly
      when every class id names a class, and then the source branch yields
      one record per row and the unified branch one per caption. */
  lemma GenerateOverSplit(classes: seq<string>, root: string, images: seq<ImageLine>, items: seq<TextItem>,
                          labels: seq<LabelLine>, splits: seq<SplitLine>, g: nat)
    requires g < 2
    requires forall l :: 0 <= l < |labels| ==> 1 <= labels[l].classId <= |classes|
    ensures var data := SplitGenerators(Merged(root, images, items, labels, splits))[g].data;
      && Generate(SourceSchema, classes, data).raised.None? && |Generate(SourceSchema, classes, data).yielded| == |data|
      && Generate(ImTextSchema, classes, data).raised.None? && |Generate(ImTextSchema, classes, data).yielded| == CaptionTotal(data)
  {
    var data := SplitGenerators(Merged(root, images, items, labels, splits))[g].data;
    SplitRowsReady(classes, root, images, items, labels, splits, g);
    GenSourceSpec(classes, data);
    GenImTextKeys(classes, data, 0);
    GenImTextCompletes(classes, data, 0);
    assert Generate(SourceSchema, classes, data) == GenSource(classes, data);
    assert Generate(ImTextSchema, classes, data) == GenImText(classes, data, 0);
  }

  /** Every row of either split has a class in the table and aligned
      caption lists, when every label line names a class of the table. */
  lemma SplitRowsReady(classes: seq<string>, root: string, images: seq<ImageLine>, items: seq<TextItem>,
                       labels: seq<LabelLine>, splits: seq<SplitLine>, g: nat)
    requires g < 2
    requires forall l :: 0 <= l < |labels| ==> 1 <= labels[l].classId <= |classes|
    ensures RowsReady(classes, SplitGenerators(Merged(root, images, items, labels, splits))[g].data)
  {
    var df := Merged(root, images, items, labels, splits);
    var data := SplitGenerators(df)[g].data;
    SplitGeneratorsCover(df);
    forall m | 0 <= m < |data|
      ensures RowReady(classes, data[m].1)
    {
      assert data[m] in data;
      assert df[data[m].0] == data[m].1;
      MergedRowFacts(root, images, items, labels, splits, data[m].0);
    }
  }

  /** A merged row has aligned caption lists and the class of some label
      line. */
  lemma MergedRowFacts(root: string, images: seq<ImageLine>, items: seq<TextItem>,
                       labels: seq<LabelLine>, splits: seq<SplitLine>, k: nat)
    requires k < |Merged(root, images, items, labels, splits)|
    ensures var r := Merged(root, images, items, labels, splits)[k];
      |r.enCaptions| == |r.idCaptions| && exists l :: 0 <= l < |labels| && r.classId == labels[l].classId
  {
    var df := Merged(root, images, items, labels, splits);
    MergedMembers(root, images, items, labels, splits);
    assert df[k] in df;
  }

  lemma {:induction false} GenImTextCompletes(classes: seq<string>, data: seq<(int, Row)>, key: nat)
    requires RowsReady(classes, data)
    ensures GenImText(classes, data, key).raised.None?
    decreases |data|
  {
    if |data| > 0 {
      GenImTextTail(classes, data, key);
      GenImTextTailReady(classes, data);
      GenImTextCompletes(classes, data[1..], key + |data[0].1.idCaptions|);
    }
  }
}
