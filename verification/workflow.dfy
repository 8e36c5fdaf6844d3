/** A ComfyUI workflow template and the edits the factory makes to it. A template
    maps node ids to nodes; a node is normally a dict holding a `class_type` and an
    `inputs` dict. Edits are functions from template to template, so a clone is the
    template itself and an edit never reaches the value it was made from. */
module Workflow {
  import opened Wrappers
  import Assoc
  import opened Json

  type Template = Assoc.Record<Json>

  /** The largest seed `random.randint(0, 2**63 - 1)` can draw. */
  const MaxSeed: int := 0x7FFF_FFFF_FFFF_FFFF

  /** `node.get("class_type")` on a dict node; None for a node that is not a dict. */
  function ClassOf(node: Json): Option<Json> {
    if node.JObj? then Assoc.Get(node.fields, "class_type") else None
  }

  /** `isinstance(node, dict) and node.get("class_type") == class_type`. */
  predicate HasClass(node: Json, cls: string) {
    ClassOf(node) == Some(JStr(cls))
  }

  /** The positions, from `i` on, whose node has class `cls`, in template order. */
  function MatchingFrom(t: Template, cls: string, i: nat): seq<nat>
    requires i <= |t|
    decreases |t| - i
  {
    if i == |t| then []
    else
      var rest := MatchingFrom(t, cls, i + 1);
      if HasClass(t[i].1, cls) then [i] + rest else rest
  }

  /** The positions found from `i` on are exactly those of class `cls`, increasing. */
  lemma {:induction false} MatchingFromDefinition(t: Template, cls: string, i: nat)
    requires i <= |t|
    decreases |t| - i
    ensures forall j :: 0 <= j < |MatchingFrom(t, cls, i)| ==>
      i <= MatchingFrom(t, cls, i)[j] < |t| && HasClass(t[MatchingFrom(t, cls, i)[j]].1, cls)
    ensures forall j, k :: 0 <= j < k < |MatchingFrom(t, cls, i)| ==> MatchingFrom(t, cls, i)[j] < MatchingFrom(t, cls, i)[k]
    ensures forall m :: i <= m < |t| && HasClass(t[m].1, cls) ==> m in MatchingFrom(t, cls, i)
  {
    if i < |t| {
      MatchingFromDefinition(t, cls, i + 1);
      var rest := MatchingFrom(t, cls, i + 1);
      var r := MatchingFrom(t, cls, i);
      if HasClass(t[i].1, cls) {
        assert r == [i] + rest;
        assert forall j :: 0 < j < |r| ==> r[j] == rest[j - 1];
        forall m | i <= m < |t| && HasClass(t[m].1, cls) ensures m in r {
          if m > i { assert m in rest; }
        }
      } else {
        assert r == rest;
      }
    }
  }

  /** Every position whose node has class `cls`, each once, in increasing order. */
  function Matching(t: Template, cls: string): (r: seq<nat>)
    ensures forall j :: 0 <= j < |r| ==> r[j] < |t| && HasClass(t[r[j]].1, cls)
    ensures forall j, k :: 0 <= j < k < |r| ==> r[j] < r[k]
    ensures forall m :: 0 <= m < |t| && HasClass(t[m].1, cls) ==> m in r
  {
    MatchingFromDefinition(t, cls, 0);
    MatchingFrom(t, cls, 0)
  }

  /** `find_nodes_by_class`: the ids of the nodes of class `cls`, in template order. */
  function FindNodes(t: Template, cls: string): (r: seq<string>)
    ensures |r| == |Matching(t, cls)|
    ensures forall j :: 0 <= j < |r| ==> r[j] == t[Matching(t, cls)[j]].0
  {
    var ms := Matching(t, cls);
    seq(|ms|, j requires 0 <= j < |ms| => t[ms[j]].0)
  }

  /** An id is found exactly when some node stored under it has the class. */
  lemma FoundExactly(t: Template, cls: string, id: string)
    ensures id in FindNodes(t, cls) <==> exists m :: 0 <= m < |t| && t[m].0 == id && HasClass(t[m].1, cls)
  {
    var ms := Matching(t, cls);
    var r := FindNodes(t, cls);
    if id in r {
      var j :| 0 <= j < |r| && r[j] == id;
      assert t[ms[j]].0 == id && HasClass(t[ms[j]].1, cls);
    }
    if exists m :: 0 <= m < |t| && t[m].0 == id && HasClass(t[m].1, cls) {
      var m :| 0 <= m < |t| && t[m].0 == id && HasClass(t[m].1, cls);
      var j :| 0 <= j < |ms| && ms[j] == m;
      assert r[j] == id;
    }
  }

  /** Node `id` exists and is a dict. */
  predicate IsDictNode(t: Template, id: string) {
    Assoc.Get(t, id).Some? && Assoc.Get(t, id).value.JObj?
  }

  /** The value of input `key` on node `id`, when the node and its `inputs` are dicts
      and the key is set. */
  function InputOf(t: Template, id: string, key: string): Option<Json> {
    var node := Assoc.Get(t, id);
    if node.Some? && node.value.JObj? then
      var ins := Assoc.Get(node.value.fields, "inputs");
      if ins.Some? && ins.value.JObj? then Assoc.Get(ins.value.fields, key) else None
    else None
  }

  /** An edit keeps every id at its place and every node's class. */
  predicate SameShape(t: Template, u: Template) {
    |u| == |t| && forall i :: 0 <= i < |t| ==> u[i].0 == t[i].0 && ClassOf(u[i].1) == ClassOf(t[i].1)
  }

  /** Writing an input of node `id` raises a TypeError: the node exists and is not
      `None`, and it is not a dict or its `inputs` is not a dict. */
  predicate WriteFails(t: Template, id: string) {
    && Assoc.Get(t, id).Some? && Assoc.Get(t, id) != Some(JNull)
    && (!Assoc.Get(t, id).value.JObj?
        || (Assoc.HasKey(Assoc.Get(t, id).value.fields, "inputs")
            && !Assoc.Get(Assoc.Get(t, id).value.fields, "inputs").value.JObj?))
  }

  /** `_set_input`: a missing node, or one stored as `None`, is skipped; a dict node
      gets `inputs[key] = value`, its `inputs` created empty when absent. Any other
      node, or `inputs` that is not a dict, makes Python raise a TypeError. */
  function SetInput(t: Template, id: string, key: string, value: Json): (r: Result<Template, string>)
    ensures Assoc.Get(t, id).None? || Assoc.Get(t, id) == Some(JNull) ==> r == Ok(t)
    ensures r.Err? <==> WriteFails(t, id)
    ensures r.Ok? && IsDictNode(t, id) ==> InputOf(r.value, id, key) == Some(value)
    ensures r.Ok? ==> forall id', key' :: (id', key') != (id, key) ==> InputOf(r.value, id', key') == InputOf(t, id', key')
    ensures r.Ok? ==> SameShape(t, r.value)
    ensures r.Ok? ==> forall id' :: IsDictNode(r.value, id') == IsDictNode(t, id')
    ensures r.Ok? && Assoc.UniqueKeys(t) ==> Assoc.UniqueKeys(r.value)
  {
    var node := Assoc.Get(t, id);
    if node.None? || node.value.JNull? then Ok(t)
    else if !node.value.JObj? then Err("TypeError")
    else
      var fields := node.value.fields;
      var ins := Assoc.Get(fields, "inputs");
      if ins.Some? && !ins.value.JObj? then Err("TypeError")
      else
        var prior := if ins.Some? then ins.value.fields else [];
        var fields' := Assoc.Put(fields, "inputs", JObj(Assoc.Put(prior, key, value)));
        var u := Assoc.Put(t, id, JObj(fields'));
        SetInputFrame(t, id, key, value, prior, fields, fields', u);
        Ok(u)
  }

  lemma SetInputFrame(t: Template, id: string, key: string, value: Json, prior: Assoc.Record<Json>,
                      fields: Assoc.Record<Json>, fields': Assoc.Record<Json>, u: Template)
    requires Assoc.Get(t, id) == Some(JObj(fields))
    requires Assoc.Get(fields, "inputs").Some? ==> Assoc.Get(fields, "inputs") == Some(JObj(prior))
    requires Assoc.Get(fields, "inputs").None? ==> prior == []
    requires fields' == Assoc.Put(fields, "inputs", JObj(Assoc.Put(prior, key, value)))
    requires u == Assoc.Put(t, id, JObj(fields'))
    ensures InputOf(u, id, key) == Some(value)
    ensures forall id', key' :: (id', key') != (id, key) ==> InputOf(u, id', key') == InputOf(t, id', key')
    ensures SameShape(t, u)
    ensures forall id' :: IsDictNode(u, id') == IsDictNode(t, id')
  {
    WrittenInput(t, id, key, value, prior, fields, fields', u);
    OtherNodesKept(t, id, fields', u);
    SameNodeOtherKeys(t, id, key, value, prior, fields, fields', u);
    assert Assoc.Get(fields', "class_type") == Assoc.Get(fields, "class_type");
    WriteKeepsShape(t, id, fields, fields', u);
  }

  lemma WrittenInput(t: Template, id: string, key: string, value: Json, prior: Assoc.Record<Json>,
                     fields: Assoc.Record<Json>, fields': Assoc.Record<Json>, u: Template)
    requires fields' == Assoc.Put(fields, "inputs", JObj(Assoc.Put(prior, key, value)))
    requires u == Assoc.Put(t, id, JObj(fields'))
    ensures InputOf(u, id, key) == Some(value)
  {
  }

  lemma OtherNodesKept(t: Template, id: string, fields': Assoc.Record<Json>, u: Template)
    requires u == Assoc.Put(t, id, JObj(fields'))
    ensures forall id', key' :: id' != id ==> InputOf(u, id', key') == InputOf(t, id', key')
  {
  }

  lemma SameNodeOtherKeys(t: Template, id: string, key: string, value: Json, prior: Assoc.Record<Json>,
                          fields: Assoc.Record<Json>, fields': Assoc.Record<Json>, u: Template)
    requires Assoc.Get(t, id) == Some(JObj(fields))
    requires Assoc.Get(fields, "inputs").Some? ==> Assoc.Get(fields, "inputs") == Some(JObj(prior))
    requires Assoc.Get(fields, "inputs").None? ==> prior == []
    requires fields' == Assoc.Put(fields, "inputs", JObj(Assoc.Put(prior, key, value)))
    requires u == Assoc.Put(t, id, JObj(fields'))
    ensures forall key' :: key' != key ==> InputOf(u, id, key') == InputOf(t, id, key')
  {
  }

  lemma WriteKeepsShape(t: Template, id: string, fields: Assoc.Record<Json>, fields': Assoc.Record<Json>, u: Template)
    requires Assoc.Get(t, id) == Some(JObj(fields))
    requires Assoc.Get(fields', "class_type") == Assoc.Get(fields, "class_type")
    requires u == Assoc.Put(t, id, JObj(fields'))
    ensures SameShape(t, u)
    ensures forall id' :: IsDictNode(u, id') == IsDictNode(t, id')
  {
    var i := Assoc.IndexOf(t, id).value;
    assert t[i].1 == JObj(fields);
    assert u == t[i := (id, JObj(fields'))];
  }

  /** `set_positive_prompt`: the `text` input of a CLIPTextEncode node. */
  function SetPositivePrompt(t: Template, id: string, text: string): (r: Result<Template, string>)
    ensures r.Ok? && IsDictNode(t, id) ==> InputOf(r.value, id, "text") == Some(JStr(text))
    ensures r.Ok? ==> forall id', key' :: (id', key') != (id, "text") ==> InputOf(r.value, id', key') == InputOf(t, id', key')
    ensures r.Err? <==> WriteFails(t, id)
  {
    SetInput(t, id, "text", JStr(text))
  }

  /** `set_negative_prompt`: the same `text` input, on the negative node. */
  function SetNegativePrompt(t: Template, id: string, text: string): (r: Result<Template, string>)
    ensures r.Ok? && IsDictNode(t, id) ==> InputOf(r.value, id, "text") == Some(JStr(text))
    ensures r.Ok? ==> forall id', key' :: (id', key') != (id, "text") ==> InputOf(r.value, id', key') == InputOf(t, id', key')
    ensures r.Err? <==> WriteFails(t, id)
  {
    SetInput(t, id, "text", JStr(text))
  }

  /** `set_checkpoint`: the `ckpt_name` input of a CheckpointLoaderSimple node. */
  function SetCheckpoint(t: Template, id: string, model: string): (r: Result<Template, string>)
    ensures r.Ok? && IsDictNode(t, id) ==> InputOf(r.value, id, "ckpt_name") == Some(JStr(model))
    ensures r.Ok? ==> forall id', key' :: (id', key') != (id, "ckpt_name") ==> InputOf(r.value, id', key') == InputOf(t, id', key')
    ensures r.Err? <==> WriteFails(t, id)
  {
    SetInput(t, id, "ckpt_name", JStr(model))
  }

  /** `set_output_prefix`: the `filename_prefix` input of a SaveImage node. */
  function SetOutputPrefix(t: Template, id: string, prefix: string): (r: Result<Template, string>)
    ensures r.Ok? && IsDictNode(t, id) ==> InputOf(r.value, id, "filename_prefix") == Some(JStr(prefix))
    ensures r.Ok? ==> forall id', key' :: (id', key') != (id, "filename_prefix") ==> InputOf(r.value, id', key') == InputOf(t, id', key')
    ensures r.Err? <==> WriteFails(t, id)
  {
    SetInput(t, id, "filename_prefix", JStr(prefix))
  }

  /** `set_image_size`: width, then height; a failure on the first stops the second. */
  function SetImageSize(t: Template, id: string, width: int, height: int): (r: Result<Template, string>)
    ensures r.Ok? && IsDictNode(t, id) ==>
      InputOf(r.value, id, "width") == Some(JNum(width)) && InputOf(r.value, id, "height") == Some(JNum(height))
    ensures r.Ok? ==> forall id', key' :: (id' != id || (key' != "width" && key' != "height")) ==>
      InputOf(r.value, id', key') == InputOf(t, id', key')
    ensures r.Ok? ==> SameShape(t, r.value)
    ensures SetInput(t, id, "width", JNum(width)).Err? ==> r.Err?
    ensures r.Err? <==> WriteFails(t, id)
  {
    var w := SetInput(t, id, "width", JNum(width));
    if w.Err? then w
    else
      WriteLeavesWritable(t, id, "width", JNum(width));
      var h := SetInput(w.value, id, "height", JNum(height));
      SameShapeTrans(t, w.value, h);
      if h.Err? then h
      else
        assert "height" != "width" by { assert "height"[0] != "width"[0]; }
        TwoWritesFrame(t, w.value, h.value, id, "width", "height");
        h
  }

  /** After a successful write the node takes further writes. */
  lemma WriteLeavesWritable(t: Template, id: string, key: string, value: Json)
    requires SetInput(t, id, key, value).Ok?
    ensures !WriteFails(SetInput(t, id, key, value).value, id)
  {
  }

  /** Two writes to one node leave every other input alone. */
  lemma TwoWritesFrame(t: Template, u: Template, v: Template, id: string, k1: string, k2: string)
    requires forall a, b :: (a, b) != (id, k1) ==> InputOf(u, a, b) == InputOf(t, a, b)
    requires forall a, b :: (a, b) != (id, k2) ==> InputOf(v, a, b) == InputOf(u, a, b)
    ensures forall a, b :: (a != id || (b != k1 && b != k2)) ==> InputOf(v, a, b) == InputOf(t, a, b)
  {
  }

  lemma SameShapeTrans(t: Template, u: Template, v: Result<Template, string>)
    requires SameShape(t, u)
    ensures v.Ok? && SameShape(u, v.value) ==> SameShape(t, v.value)
  {
  }

  /** The seed `set_seed` stores: a non-negative seed as given, a negative one
      replaced by `draw`, the random number generator's pick. */
  function ActualSeed(seed: int, draw: int): (s: int)
    requires 0 <= draw <= MaxSeed
    ensures seed >= 0 ==> s == seed
    ensures 0 <= s
    ensures seed < 0 ==> s <= MaxSeed
  {
    if seed >= 0 then seed else draw
  }

  function SetSeed(t: Template, id: string, seed: int, draw: int): (r: Result<Template, string>)
    requires 0 <= draw <= MaxSeed
    ensures r.Ok? && IsDictNode(t, id) ==> InputOf(r.value, id, "seed") == Some(JNum(ActualSeed(seed, draw)))
    ensures r.Ok? ==> forall id', key' :: (id', key') != (id, "seed") ==> InputOf(r.value, id', key') == InputOf(t, id', key')
    ensures r.Err? <==> WriteFails(t, id)
  {
    SetInput(t, id, "seed", JNum(ActualSeed(seed, draw)))
  }

  /** Setting an input on an id the template lacks leaves the template as it is. */
  lemma MissingNodeNoOp(t: Template, id: string, key: string, value: Json)
    requires !Assoc.HasKey(t, id)
    ensures SetInput(t, id, key, value) == Ok(t)
  {
  }

  /** An edit keeps the class of every node, so the nodes of each class are found
      where they were. */
  lemma {:induction false} SameShapeSameMatches(t: Template, u: Template, cls: string, i: nat)
    requires SameShape(t, u) && i <= |t|
    ensures MatchingFrom(u, cls, i) == MatchingFrom(t, cls, i)
    decreases |t| - i
  {
    if i < |t| {
      SameShapeSameMatches(t, u, cls, i + 1);
      assert HasClass(u[i].1, cls) == HasClass(t[i].1, cls);
    }
  }

  lemma SameShapeSameNodes(t: Template, u: Template, cls: string)
    requires SameShape(t, u)
    ensures FindNodes(u, cls) == FindNodes(t, cls)
  {
    SameShapeSameMatches(t, u, cls, 0);
  }

  /** In a template without repeated ids, a found id names a dict node. */
  lemma FoundIsDict(t: Template, cls: string, j: nat)
    requires Assoc.UniqueKeys(t) && j < |FindNodes(t, cls)|
    ensures IsDictNode(t, FindNodes(t, cls)[j])
  {
    var m := Matching(t, cls)[j];
    UniqueGet(t, m);
  }

  lemma UniqueGet(t: Template, m: nat)
    requires Assoc.UniqueKeys(t) && m < |t|
    ensures Assoc.Get(t, t[m].0) == Some(t[m].1)
  {
    var k := Assoc.IndexOf(t, t[m].0).value;
    assert k == m;
  }

  /** Two different found positions name two different ids. */
  lemma FoundDistinct(t: Template, cls: string, j: nat, k: nat)
    requires Assoc.UniqueKeys(t) && j < k < |FindNodes(t, cls)|
    ensures FindNodes(t, cls)[j] != FindNodes(t, cls)[k]
  {
  }

  // ---------------------------------------------------------------------------
  // Sequences of writes

  datatype Write = Write(node: string, key: string, value: Json)

  /** Writes applied in order; the first failure stops the rest. */
  function ApplyWrites(t: Template, ws: seq<Write>): (r: Result<Template, string>)
    ensures r.Ok? ==> SameShape(t, r.value)
    ensures r.Ok? ==> forall id' :: IsDictNode(r.value, id') == IsDictNode(t, id')
    ensures |ws| == 0 ==> r == Ok(t)
    decreases |ws|
  {
    if |ws| == 0 then Ok(t)
    else
      var u := SetInput(t, ws[0].node, ws[0].key, ws[0].value);
      if u.Err? then Err(u.error)
      else
        var r := ApplyWrites(u.value, ws[1..]);
        SameShapeTrans(t, u.value, r);
        r
  }

  /** An input no write targets is left as it was. */
  lemma {:induction false} Untouched(t: Template, ws: seq<Write>, id: string, key: string)
    requires ApplyWrites(t, ws).Ok?
    requires forall i :: 0 <= i < |ws| ==> (ws[i].node, ws[i].key) != (id, key)
    ensures InputOf(ApplyWrites(t, ws).value, id, key) == InputOf(t, id, key)
    decreases |ws|
  {
    if |ws| > 0 {
      ApplyStep(t, ws);
      var u := SetInput(t, ws[0].node, ws[0].key, ws[0].value).value;
      assert (ws[0].node, ws[0].key) != (id, key);
      var rest := ws[1..];
      assert forall j :: 0 <= j < |rest| ==> rest[j] == ws[j + 1];
      Untouched(u, rest, id, key);
    }
  }

  /** The last write to a dict node's input is the one that stays. */
  lemma {:induction false} LastWriteWins(t: Template, ws: seq<Write>, i: nat)
    requires ApplyWrites(t, ws).Ok? && i < |ws| && IsDictNode(t, ws[i].node)
    requires forall j :: i < j < |ws| ==> (ws[j].node, ws[j].key) != (ws[i].node, ws[i].key)
    ensures InputOf(ApplyWrites(t, ws).value, ws[i].node, ws[i].key) == Some(ws[i].value)
    decreases |ws|, 1
  {
    if i == 0 {
      FirstWriteKept(t, ws);
    } else {
      LaterWriteKept(t, ws, i);
    }
  }

  /** A write after the first one: the first write keeps the node a dict, and the
      rest of the run decides the input. */
  lemma {:induction false} LaterWriteKept(t: Template, ws: seq<Write>, i: nat)
    requires ApplyWrites(t, ws).Ok? && 0 < i < |ws| && IsDictNode(t, ws[i].node)
    requires forall j :: i < j < |ws| ==> (ws[j].node, ws[j].key) != (ws[i].node, ws[i].key)
    ensures InputOf(ApplyWrites(t, ws).value, ws[i].node, ws[i].key) == Some(ws[i].value)
    decreases |ws|, 0
  {
    ApplyStep(t, ws);
    ShiftUnshadowed(ws, i);
    LastWriteWins(SetInput(t, ws[0].node, ws[0].key, ws[0].value).value, ws[1..], i - 1);
  }

  /** The first write stays when no later write addresses the same input. */
  lemma FirstWriteKept(t: Template, ws: seq<Write>)
    requires ApplyWrites(t, ws).Ok? && 0 < |ws| && IsDictNode(t, ws[0].node)
    requires forall j :: 0 < j < |ws| ==> (ws[j].node, ws[j].key) != (ws[0].node, ws[0].key)
    ensures InputOf(ApplyWrites(t, ws).value, ws[0].node, ws[0].key) == Some(ws[0].value)
  {
    var u := SetInput(t, ws[0].node, ws[0].key, ws[0].value).value;
    Untouched(u, ws[1..], ws[0].node, ws[0].key);
  }

  /** A successful run of writes is its first write followed by the rest. */
  lemma ApplyStep(t: Template, ws: seq<Write>)
    requires |ws| > 0 && ApplyWrites(t, ws).Ok?
    ensures SetInput(t, ws[0].node, ws[0].key, ws[0].value).Ok?
    ensures ApplyWrites(t, ws) == ApplyWrites(SetInput(t, ws[0].node, ws[0].key, ws[0].value).value, ws[1..])
  {
  }

  /** Dropping the first write keeps a later write unshadowed. */
  lemma ShiftUnshadowed(ws: seq<Write>, i: nat)
    requires 0 < i < |ws|
    requires forall j :: i < j < |ws| ==> (ws[j].node, ws[j].key) != (ws[i].node, ws[i].key)
    ensures ws[1..][i - 1] == ws[i]
    ensures forall j :: i - 1 < j < |ws[1..]| ==> (ws[1..][j].node, ws[1..][j].key) != (ws[1..][i - 1].node, ws[1..][i - 1].key)
  {
    forall j | i - 1 < j < |ws[1..]|
      ensures (ws[1..][j].node, ws[1..][j].key) != (ws[1..][i - 1].node, ws[1..][i - 1].key)
    {
      assert ws[1..][j] == ws[j + 1];
    }
  }
}
