/** The values that one augmentation run passes along. A string stands for its bytes, so its length is a byte count;
    scores are reals. */
module AugmentTypes {

  datatype FusedResult = FusedResult(noteId: string, title: string, snippet: string, source: string, score: real,
                                     projectId: string, anchor: string)

  datatype CommunitySummary = CommunitySummary(clusterId: string, topic: string, files: seq<string>,
                                               symbols: seq<string>, noteIds: seq<string>, tokenCount: nat)

  datatype ProjectMeta = ProjectMeta(projectId: string, doctrine: string, stage: string)

  datatype StaticContext = StaticContext(meta: ProjectMeta, summaries: seq<CommunitySummary>, tokens: nat)

  datatype VolatileContext = VolatileContext(fused: seq<FusedResult>, callers: seq<string>, callees: seq<string>,
                                             tokens: nat)
}
