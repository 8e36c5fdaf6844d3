/** The manga factory's job queue: expanding a scenario (chapters of pages of panels)
    into generation jobs, counting jobs by status, and wiring one job's prompts, seed,
    size, output prefix and checkpoint into a copy of the workflow template. */
module JobQueue {
  import opened Wrappers
  import Assoc
  import Decimal
  import opened Json
  import opened Workflow

  datatype Status = Pending | Queued | Running | Completed | Failed

  /** `GenerationJob`. */
  datatype Job = Job(
    jobId: string, page: int, panel: int, positivePrompt: string, negativePrompt: string,
    seed: int, checkpoint: Option<string>, width: int, height: int,
    status: Status, error: Option<string>)

  /** A panel of the scenario file; an optional field is None when the key is absent. */
  datatype Panel = Panel(
    positivePrompt: string, negativePrompt: string,
    seed: Option<int>, checkpoint: Option<string>, width: Option<int>, height: Option<int>)

  datatype Page = Page(page: int, panels: seq<Panel>)

  datatype Chapter = Chapter(pages: seq<Page>)

  // ---------------------------------------------------------------------------
  // Expansion (`from_scenarios_file`)

  /** A panel with its page number and its 1-based position on the page. */
  datatype Slot = Slot(page: int, panel: nat, data: Panel)

  /** The panels of one page, numbered from 1. */
  function PageSlots(pg: Page): (r: seq<Slot>)
    ensures |r| == |pg.panels|
    ensures forall i :: 0 <= i < |r| ==> r[i] == Slot(pg.page, i + 1, pg.panels[i])
  {
    seq(|pg.panels|, i requires 0 <= i < |pg.panels| => Slot(pg.page, i + 1, pg.panels[i]))
  }

  /** The panels of a run of pages, page by page. */
  function ChapterSlots(pages: seq<Page>): seq<Slot> {
    if |pages| == 0 then [] else ChapterSlots(pages[..|pages| - 1]) + PageSlots(pages[|pages| - 1])
  }

  /** Every panel of the scenario, chapter by chapter, page by page. */
  function AllSlots(chapters: seq<Chapter>): seq<Slot> {
    if |chapters| == 0 then []
    else AllSlots(chapters[..|chapters| - 1]) + ChapterSlots(chapters[|chapters| - 1].pages)
  }

  /** `f"job_{n:04d}"`. */
  function JobId(n: nat): string {
    "job_" + Decimal.PadStart(Decimal.Dec(n), 4, '0')
  }

  /** Job ids are distinct for distinct counters, four digits or more. */
  lemma JobIdInjective(m: nat, n: nat)
    requires m != n
    ensures JobId(m) != JobId(n)
  {
    Decimal.PaddedValue(m, 4);
    Decimal.PaddedValue(n, 4);
    assert JobId(m)[4..] == Decimal.PadStart(Decimal.Dec(m), 4, '0');
    assert JobId(n)[4..] == Decimal.PadStart(Decimal.Dec(n), 4, '0');
  }

  /** The `n`-th job, from its panel: the field defaults are seed -1, no checkpoint and
      1024 by 1024, and every job starts pending. */
  function MakeJob(n: nat, s: Slot): Job {
    Job(JobId(n), s.page, s.panel, s.data.positivePrompt, s.data.negativePrompt,
        s.data.seed.GetOr(-1), s.data.checkpoint, s.data.width.GetOr(1024), s.data.height.GetOr(1024),
        Pending, None)
  }

  /** `jobs` are the jobs of `slots`, numbered from 1. */
  predicate Numbered(jobs: seq<Job>, slots: seq<Slot>) {
    |jobs| == |slots| && forall k :: 0 <= k < |jobs| ==> jobs[k] == MakeJob(k + 1, slots[k])
  }

  /** The expansion loop: one job per panel, in chapter, page and panel order, with
      ids counting up from job_0001. */
  method Expand(chapters: seq<Chapter>) returns (jobs: seq<Job>)
    ensures |jobs| == |AllSlots(chapters)|
    ensures forall k :: 0 <= k < |jobs| ==> jobs[k] == MakeJob(k + 1, AllSlots(chapters)[k])
  {
    jobs := [];
    var count := 0;
    for ci := 0 to |chapters|
      invariant count == |jobs|
      invariant Numbered(jobs, AllSlots(chapters[..ci]))
    {
      var pages := chapters[ci].pages;
      ghost var before := AllSlots(chapters[..ci]);
      for pi := 0 to |pages|
        invariant count == |jobs|
        invariant Numbered(jobs, before + ChapterSlots(pages[..pi]))
      {
        var pg := pages[pi];
        ghost var done := before + ChapterSlots(pages[..pi]);
        for qi := 0 to |pg.panels|
          invariant count == |jobs|
          invariant Numbered(jobs, done + PageSlots(pg)[..qi])
        {
          NumberedAppend(jobs, done, PageSlots(pg), qi);
          count := count + 1;
          jobs := jobs + [MakeJob(count, Slot(pg.page, qi + 1, pg.panels[qi]))];
        }
        ChapterSlotsStep(before, pages, pi);
      }
      AllSlotsStep(chapters, ci);
    }
    assert chapters[..|chapters|] == chapters;
  }

  /** One more panel numbered after the jobs so far. */
  lemma NumberedAppend(jobs: seq<Job>, done: seq<Slot>, slots: seq<Slot>, q: nat)
    requires q < |slots| && Numbered(jobs, done + slots[..q])
    ensures Numbered(jobs + [MakeJob(|jobs| + 1, slots[q])], done + slots[..q + 1])
  {
    assert done + slots[..q + 1] == (done + slots[..q]) + [slots[q]];
  }

  lemma ChapterSlotsStep(before: seq<Slot>, pages: seq<Page>, p: nat)
    requires p < |pages|
    ensures before + ChapterSlots(pages[..p]) + PageSlots(pages[p])[..|pages[p].panels|]
            == before + ChapterSlots(pages[..p + 1])
  {
    assert PageSlots(pages[p])[..|pages[p].panels|] == PageSlots(pages[p]);
    assert pages[..p + 1][..p] == pages[..p];
  }

  lemma AllSlotsStep(chapters: seq<Chapter>, c: nat)
    requires c < |chapters|
    ensures AllSlots(chapters[..c]) + ChapterSlots(chapters[c].pages[..|chapters[c].pages|])
            == AllSlots(chapters[..c + 1])
  {
    assert chapters[c].pages[..|chapters[c].pages|] == chapters[c].pages;
    assert chapters[..c + 1][..c] == chapters[..c];
  }

  /** No two jobs of an expansion share an id. */
  lemma ExpandedIdsDistinct(slots: seq<Slot>, jobs: seq<Job>, i: nat, j: nat)
    requires Numbered(jobs, slots) && i < j < |jobs|
    ensures jobs[i].jobId != jobs[j].jobId
  {
    JobIdInjective(i + 1, j + 1);
  }

  /** A panel that sets none of the optional keys gets the defaults. */
  lemma BarePanelDefaults(n: nat, page: int, k: nat, pos: string, neg: string)
    ensures var j := MakeJob(n, Slot(page, k, Panel(pos, neg, None, None, None, None)));
      j.seed == -1 && j.checkpoint == None && j.width == 1024 && j.height == 1024
      && j.status == Pending && j.error == None && j.page == page && j.panel == k
  {
  }

  /** The number of panels, added up chapter by chapter and page by page. */
  function PanelsOfPages(pages: seq<Page>): nat {
    if |pages| == 0 then 0 else |pages[0].panels| + PanelsOfPages(pages[1..])
  }

  function PanelCount(chapters: seq<Chapter>): nat {
    if |chapters| == 0 then 0 else PanelsOfPages(chapters[0].pages) + PanelCount(chapters[1..])
  }

  lemma {:induction false} PanelsOfPagesLast(pages: seq<Page>)
    requires |pages| > 0
    ensures PanelsOfPages(pages) == PanelsOfPages(pages[..|pages| - 1]) + |pages[|pages| - 1].panels|
    decreases |pages|
  {
    if |pages| > 1 {
      PanelsOfPagesLast(pages[1..]);
      assert pages[1..][..|pages| - 2] == pages[..|pages| - 1][1..];
    }
  }

  lemma {:induction false} PanelCountLast(chapters: seq<Chapter>)
    requires |chapters| > 0
    ensures PanelCount(chapters) == PanelCount(chapters[..|chapters| - 1]) + PanelsOfPages(chapters[|chapters| - 1].pages)
    decreases |chapters|
  {
    if |chapters| > 1 {
      PanelCountLast(chapters[1..]);
      assert chapters[1..][..|chapters| - 2] == chapters[..|chapters| - 1][1..];
    }
  }

  lemma {:induction false} ChapterSlotsCount(pages: seq<Page>)
    ensures |ChapterSlots(pages)| == PanelsOfPages(pages)
    decreases |pages|
  {
    if |pages| > 0 {
      ChapterSlotsCount(pages[..|pages| - 1]);
      PanelsOfPagesLast(pages);
    }
  }

  /** There are exactly as many jobs as panels in the scenario. */
  lemma {:induction false} OneJobPerPanel(chapters: seq<Chapter>)
    ensures |AllSlots(chapters)| == PanelCount(chapters)
    decreases |chapters|
  {
    if |chapters| > 0 {
      OneJobPerPanel(chapters[..|chapters| - 1]);
      ChapterSlotsCount(chapters[|chapters| - 1].pages);
      PanelCountLast(chapters);
    }
  }

  // ---------------------------------------------------------------------------
  // Status counts (`get_status`)

  datatype Counts = Counts(pending: nat, queued: nat, running: nat, completed: nat, failed: nat)

  function CountOf(jobs: seq<Job>, st: Status): nat {
    if |jobs| == 0 then 0
    else CountOf(jobs[..|jobs| - 1], st) + (if jobs[|jobs| - 1].status == st then 1 else 0)
  }

  function Total(c: Counts): nat {
    c.pending + c.queued + c.running + c.completed + c.failed
  }

  /** The counts of `jobs`, status by status. */
  function CountsOf(jobs: seq<Job>): Counts {
    Counts(CountOf(jobs, Pending), CountOf(jobs, Queued), CountOf(jobs, Running),
           CountOf(jobs, Completed), CountOf(jobs, Failed))
  }

  /** `counts[status] += 1`. */
  function Bump(c: Counts, st: Status): (r: Counts)
    ensures Total(r) == Total(c) + 1
  {
    match st
    case Pending => c.(pending := c.pending + 1)
    case Queued => c.(queued := c.queued + 1)
    case Running => c.(running := c.running + 1)
    case Completed => c.(completed := c.completed + 1)
    case Failed => c.(failed := c.failed + 1)
  }

  lemma CountsStep(jobs: seq<Job>, i: nat)
    requires i < |jobs|
    ensures CountsOf(jobs[..i + 1]) == Bump(CountsOf(jobs[..i]), jobs[i].status)
  {
    assert jobs[..i + 1][..i] == jobs[..i];
  }

  /** `get_status`: every counter starts at 0 and each job adds one to its own. */
  method GetStatus(jobs: seq<Job>) returns (c: Counts)
    ensures c.pending == CountOf(jobs, Pending) && c.queued == CountOf(jobs, Queued)
    ensures c.running == CountOf(jobs, Running) && c.completed == CountOf(jobs, Completed)
    ensures c.failed == CountOf(jobs, Failed)
    ensures Total(c) == |jobs|
  {
    c := Counts(0, 0, 0, 0, 0);
    for i := 0 to |jobs|
      invariant c == CountsOf(jobs[..i])
    {
      CountsStep(jobs, i);
      c := Bump(c, jobs[i].status);
    }
    assert jobs[..|jobs|] == jobs;
    CountsSum(jobs);
  }

  /** The five counts always add up to the number of jobs. */
  lemma {:induction false} CountsSum(jobs: seq<Job>)
    ensures CountOf(jobs, Pending) + CountOf(jobs, Queued) + CountOf(jobs, Running)
            + CountOf(jobs, Completed) + CountOf(jobs, Failed) == |jobs|
    decreases |jobs|
  {
    if |jobs| > 0 {
      CountsSum(jobs[..|jobs| - 1]);
    }
  }

  // ---------------------------------------------------------------------------
  // Wiring a job into the workflow (`_process_job`, before the prompt is queued)

  const Clip := "CLIPTextEncode"
  const Sampler := "KSampler"
  const Latent := "EmptyLatentImage"
  const Save := "SaveImage"
  const Loader := "CheckpointLoaderSimple"

  /** The prompt writes: positive and negative on the first two CLIP nodes, positive
      alone when there is one. */
  function PromptWrites(clip: seq<string>, job: Job): (ws: seq<Write>)
    ensures forall w :: w in ws ==> w.key == "text"
  {
    if |clip| >= 2 then [Write(clip[0], "text", JStr(job.positivePrompt)), Write(clip[1], "text", JStr(job.negativePrompt))]
    else if |clip| == 1 then [Write(clip[0], "text", JStr(job.positivePrompt))]
    else []
  }

  /** The seed, size and output-prefix writes, on the first node of each class. */
  function OtherWrites(t: Template, job: Job, draw: int): (ws: seq<Write>)
    requires 0 <= draw <= MaxSeed
    ensures OtherKeys(ws)
  {
    var ks := FindNodes(t, Sampler);
    var lat := FindNodes(t, Latent);
    var save := FindNodes(t, Save);
    var seed := if |ks| > 0 then [Write(ks[0], "seed", JNum(ActualSeed(job.seed, draw)))] else [];
    var size := if |lat| > 0 then [Write(lat[0], "width", JNum(job.width)), Write(lat[0], "height", JNum(job.height))] else [];
    var prefix := if |save| > 0 then [Write(save[0], "filename_prefix", JStr("manga_" + job.jobId))] else [];
    OtherKeyNames();
    OtherKeysAppend(seed, size);
    OtherKeysAppend(seed + size, prefix);
    seed + size + prefix
  }

  /** The seed, size and prefix keys are neither the prompt nor the checkpoint key. */
  lemma OtherKeyNames()
    ensures forall k :: k in OtherKeyList ==> k != "text" && k != "ckpt_name"
  {
    forall k | k in OtherKeyList ensures k != "text" && k != "ckpt_name" {
      assert k[0] != "text"[0] && k[0] != "ckpt_name"[0];
    }
  }

  const OtherKeyList: seq<string> := ["seed", "width", "height", "filename_prefix"]

  lemma OtherKeysAppend(a: seq<Write>, b: seq<Write>)
    requires OtherKeys(a) && OtherKeys(b)
    ensures OtherKeys(a + b)
  {
  }

  /** `if job.checkpoint:` — set and not empty. */
  predicate HasCheckpoint(job: Job) {
    job.checkpoint.Some? && job.checkpoint.value != ""
  }

  /** The checkpoint step: only for a job that names a checkpoint, on the first
      loader node, looked up after the other edits. */
  function SetJobCheckpoint(u: Result<Template, string>, job: Job): (r: Result<Template, string>)
    ensures u.Err? ==> r == u
    ensures r.Ok? && (!HasCheckpoint(job) || |FindNodes(u.value, Loader)| == 0) ==>
      forall id :: InputOf(r.value, id, "ckpt_name") == InputOf(u.value, id, "ckpt_name")
    ensures r.Ok? && HasCheckpoint(job) && |FindNodes(u.value, Loader)| > 0 && IsDictNode(u.value, FindNodes(u.value, Loader)[0]) ==>
      InputOf(r.value, FindNodes(u.value, Loader)[0], "ckpt_name") == Some(JStr(job.checkpoint.value))
  {
    if u.Err? || !HasCheckpoint(job) then u
    else
      var ck := FindNodes(u.value, Loader);
      if |ck| == 0 then u
      else
        SetCheckpoint(u.value, ck[0], job.checkpoint.value)
  }

  /** The checkpoint step writes no text input. */
  lemma CheckpointKeepsText(u: Result<Template, string>, job: Job, id: string)
    requires SetJobCheckpoint(u, job).Ok?
    ensures InputOf(SetJobCheckpoint(u, job).value, id, "text") == InputOf(u.value, id, "text")
  {
    if HasCheckpoint(job) && |FindNodes(u.value, Loader)| > 0 {
      var ck := FindNodes(u.value, Loader)[0];
      CheckpointWriteKeepsText(SetJobCheckpoint(u, job), u.value, ck, job.checkpoint.value, id);
    }
  }

  lemma CheckpointWriteKeepsText(r: Result<Template, string>, t: Template, node: string, model: string, id: string)
    requires r == SetCheckpoint(t, node, model) && r.Ok?
    ensures InputOf(r.value, id, "text") == InputOf(t, id, "text")
  {
    assert "text" != "ckpt_name" by { assert "text"[0] != "ckpt_name"[0]; }
    OtherInputKept(r.value, t, node, "ckpt_name", id, "text");
  }

  /** A write framed to one input leaves an input with another key alone. */
  lemma OtherInputKept(u: Template, t: Template, node: string, key: string, id: string, other: string)
    requires forall a, b :: (a, b) != (node, key) ==> InputOf(u, a, b) == InputOf(t, a, b)
    requires other != key
    ensures InputOf(u, id, other) == InputOf(t, id, other)
  {
    assert (id, other) != (node, key);
  }

  /** The job's edits on a copy of the template, in the order of `_process_job`: the
      prompts, the seed (the random pick is `draw`), the size, the output prefix and
      last the checkpoint. Each write is what the matching setter does. */
  function Wire(t: Template, job: Job, draw: int): Result<Template, string>
    requires 0 <= draw <= MaxSeed
  {
    SetJobCheckpoint(ApplyWrites(t, PromptWrites(FindNodes(t, Clip), job) + OtherWrites(t, job, draw)), job)
  }

  /** The writes of other inputs than the prompts, and never of the checkpoint. */
  predicate OtherKeys(ow: seq<Write>) {
    forall w :: w in ow ==> w.key != "text" && w.key != "ckpt_name"
  }

  lemma WritesAfterPrompts(pw: seq<Write>, ow: seq<Write>, j: nat)
    requires OtherKeys(ow) && |pw| <= j < |pw + ow|
    ensures (pw + ow)[j].key != "text" && (pw + ow)[j].key != "ckpt_name"
  {
    assert (pw + ow)[j] in ow;
  }

  /** With two or more CLIP nodes the first holds the positive prompt and the second
      the negative one. */
  lemma TwoPrompts(t: Template, clip: seq<string>, job: Job, ow: seq<Write>)
    requires |clip| >= 2 && IsDictNode(t, clip[0]) && IsDictNode(t, clip[1]) && clip[0] != clip[1]
    requires OtherKeys(ow) && ApplyWrites(t, PromptWrites(clip, job) + ow).Ok?
    ensures var u := ApplyWrites(t, PromptWrites(clip, job) + ow).value;
      InputOf(u, clip[0], "text") == Some(JStr(job.positivePrompt))
      && InputOf(u, clip[1], "text") == Some(JStr(job.negativePrompt))
  {
    var ws := PromptWrites(clip, job) + ow;
    PositiveLast(t, ws, PromptWrites(clip, job), ow);
    NegativeLast(t, ws, PromptWrites(clip, job), ow);
  }

  /** No write after the first prompt addresses its input. */
  lemma PositiveLast(t: Template, ws: seq<Write>, pw: seq<Write>, ow: seq<Write>)
    requires |pw| == 2 && pw[0].key == "text" && pw[1].node != pw[0].node
    requires ws == pw + ow && OtherKeys(ow) && IsDictNode(t, pw[0].node) && ApplyWrites(t, ws).Ok?
    ensures InputOf(ApplyWrites(t, ws).value, pw[0].node, "text") == Some(pw[0].value)
  {
    PositiveUnshadowed(ws, pw, ow);
    LastWriteWins(t, ws, 0);
  }

  lemma PositiveUnshadowed(ws: seq<Write>, pw: seq<Write>, ow: seq<Write>)
    requires |pw| == 2 && pw[0].key == "text" && pw[1].node != pw[0].node
    requires ws == pw + ow && OtherKeys(ow)
    ensures forall j :: 0 < j < |ws| ==> (ws[j].node, ws[j].key) != (ws[0].node, ws[0].key)
  {
    forall j | 1 <= j < |ws| ensures (ws[j].node, ws[j].key) != (ws[0].node, ws[0].key) {
      if j >= 2 { WritesAfterPrompts(pw, ow, j); }
    }
  }

  /** No write after the second prompt addresses its input. */
  lemma NegativeLast(t: Template, ws: seq<Write>, pw: seq<Write>, ow: seq<Write>)
    requires |pw| == 2 && pw[1].key == "text"
    requires ws == pw + ow && OtherKeys(ow) && IsDictNode(t, pw[1].node) && ApplyWrites(t, ws).Ok?
    ensures InputOf(ApplyWrites(t, ws).value, pw[1].node, "text") == Some(pw[1].value)
  {
    NegativeUnshadowed(ws, pw, ow);
    LastWriteWins(t, ws, 1);
  }

  lemma NegativeUnshadowed(ws: seq<Write>, pw: seq<Write>, ow: seq<Write>)
    requires |pw| == 2 && pw[1].key == "text"
    requires ws == pw + ow && OtherKeys(ow)
    ensures forall j :: 1 < j < |ws| ==> (ws[j].node, ws[j].key) != (ws[1].node, ws[1].key)
  {
    forall j | 2 <= j < |ws| ensures (ws[j].node, ws[j].key) != (ws[1].node, ws[1].key) {
      WritesAfterPrompts(pw, ow, j);
    }
  }

  /** With exactly one CLIP node it holds the positive prompt. */
  lemma OnePrompt(t: Template, clip: seq<string>, job: Job, ow: seq<Write>)
    requires |clip| == 1 && IsDictNode(t, clip[0])
    requires OtherKeys(ow) && ApplyWrites(t, PromptWrites(clip, job) + ow).Ok?
    ensures InputOf(ApplyWrites(t, PromptWrites(clip, job) + ow).value, clip[0], "text")
            == Some(JStr(job.positivePrompt))
  {
    var ws := PromptWrites(clip, job) + ow;
    forall j | 1 <= j < |ws| ensures (ws[j].node, ws[j].key) != (ws[0].node, ws[0].key) {
      WritesAfterPrompts(PromptWrites(clip, job), ow, j);
    }
    LastWriteWins(t, ws, 0);
  }

  /** Without a CLIP node no text input changes. */
  lemma NoPrompt(t: Template, clip: seq<string>, job: Job, ow: seq<Write>, id: string)
    requires |clip| == 0 && OtherKeys(ow) && ApplyWrites(t, PromptWrites(clip, job) + ow).Ok?
    ensures InputOf(ApplyWrites(t, PromptWrites(clip, job) + ow).value, id, "text") == InputOf(t, id, "text")
  {
    var ws := PromptWrites(clip, job) + ow;
    forall j | 0 <= j < |ws| ensures (ws[j].node, ws[j].key) != (id, "text") {
      WritesAfterPrompts(PromptWrites(clip, job), ow, j);
    }
    Untouched(t, ws, id, "text");
  }

  /** The writes before the checkpoint step leave every checkpoint input alone. */
  lemma NoCheckpointYet(t: Template, clip: seq<string>, job: Job, ow: seq<Write>, id: string)
    requires OtherKeys(ow) && ApplyWrites(t, PromptWrites(clip, job) + ow).Ok?
    ensures InputOf(ApplyWrites(t, PromptWrites(clip, job) + ow).value, id, "ckpt_name") == InputOf(t, id, "ckpt_name")
  {
    var pw := PromptWrites(clip, job);
    var ws := pw + ow;
    forall j | 0 <= j < |ws| ensures (ws[j].node, ws[j].key) != (id, "ckpt_name") {
      if j < |pw| { assert ws[j] in pw; } else { WritesAfterPrompts(pw, ow, j); }
    }
    Untouched(t, ws, id, "ckpt_name");
  }

  /** What the wiring leaves in the template: the prompts on the first one or two CLIP
      nodes, and the checkpoint only when the job names one and a loader exists; with
      no CLIP node, or no checkpoint, nothing of that kind is written. */
  lemma WireEffects(t: Template, job: Job, draw: int)
    requires 0 <= draw <= MaxSeed && Assoc.UniqueKeys(t) && Wire(t, job, draw).Ok?
    ensures var r := Wire(t, job, draw).value; var clip := FindNodes(t, Clip);
      |clip| >= 2 ==> InputOf(r, clip[0], "text") == Some(JStr(job.positivePrompt))
                      && InputOf(r, clip[1], "text") == Some(JStr(job.negativePrompt))
    ensures var r := Wire(t, job, draw).value; var clip := FindNodes(t, Clip);
      |clip| == 1 ==> InputOf(r, clip[0], "text") == Some(JStr(job.positivePrompt))
    ensures var r := Wire(t, job, draw).value;
      |FindNodes(t, Clip)| == 0 ==> forall id :: InputOf(r, id, "text") == InputOf(t, id, "text")
    ensures var r := Wire(t, job, draw).value; var ck := FindNodes(t, Loader);
      HasCheckpoint(job) && |ck| > 0 ==> InputOf(r, ck[0], "ckpt_name") == Some(JStr(job.checkpoint.value))
    ensures var r := Wire(t, job, draw).value;
      !HasCheckpoint(job) || |FindNodes(t, Loader)| == 0 ==>
        forall id :: InputOf(r, id, "ckpt_name") == InputOf(t, id, "ckpt_name")
  {
    var ow := OtherWrites(t, job, draw);
    var clip := FindNodes(t, Clip);
    var u := ApplyWrites(t, PromptWrites(clip, job) + ow);
    WirePrompts(t, clip, job, ow);
    WireCheckpoint(t, clip, job, ow);
  }

  lemma WirePrompts(t: Template, clip: seq<string>, job: Job, ow: seq<Write>)
    requires Assoc.UniqueKeys(t) && clip == FindNodes(t, Clip) && OtherKeys(ow)
    requires SetJobCheckpoint(ApplyWrites(t, PromptWrites(clip, job) + ow), job).Ok?
    ensures var r := SetJobCheckpoint(ApplyWrites(t, PromptWrites(clip, job) + ow), job).value;
      (|clip| >= 2 ==> InputOf(r, clip[0], "text") == Some(JStr(job.positivePrompt))
                       && InputOf(r, clip[1], "text") == Some(JStr(job.negativePrompt)))
      && (|clip| == 1 ==> InputOf(r, clip[0], "text") == Some(JStr(job.positivePrompt)))
      && (|clip| == 0 ==> forall id :: InputOf(r, id, "text") == InputOf(t, id, "text"))
  {
    var u := ApplyWrites(t, PromptWrites(clip, job) + ow);
    forall id ensures InputOf(SetJobCheckpoint(u, job).value, id, "text") == InputOf(u.value, id, "text") {
      CheckpointKeepsText(u, job, id);
    }
    if |clip| >= 2 {
      FoundIsDict(t, Clip, 0);
      FoundIsDict(t, Clip, 1);
      FoundDistinct(t, Clip, 0, 1);
      TwoPrompts(t, clip, job, ow);
    } else if |clip| == 1 {
      FoundIsDict(t, Clip, 0);
      OnePrompt(t, clip, job, ow);
    } else {
      forall id ensures InputOf(u.value, id, "text") == InputOf(t, id, "text") {
        NoPrompt(t, clip, job, ow, id);
      }
    }
  }

  lemma WireCheckpoint(t: Template, clip: seq<string>, job: Job, ow: seq<Write>)
    requires Assoc.UniqueKeys(t) && OtherKeys(ow)
    requires SetJobCheckpoint(ApplyWrites(t, PromptWrites(clip, job) + ow), job).Ok?
    ensures var r := SetJobCheckpoint(ApplyWrites(t, PromptWrites(clip, job) + ow), job).value;
      var ck := FindNodes(t, Loader);
      (HasCheckpoint(job) && |ck| > 0 ==> InputOf(r, ck[0], "ckpt_name") == Some(JStr(job.checkpoint.value)))
      && (!HasCheckpoint(job) || |ck| == 0 ==> forall id :: InputOf(r, id, "ckpt_name") == InputOf(t, id, "ckpt_name"))
  {
    var u := ApplyWrites(t, PromptWrites(clip, job) + ow);
    SameShapeSameNodes(t, u.value, Loader);
    forall id ensures InputOf(u.value, id, "ckpt_name") == InputOf(t, id, "ckpt_name") {
      NoCheckpointYet(t, clip, job, ow, id);
    }
    var ck := FindNodes(t, Loader);
    if HasCheckpoint(job) && |ck| > 0 {
      FoundIsDict(t, Loader, 0);
      assert IsDictNode(u.value, ck[0]);
    }
  }
}
