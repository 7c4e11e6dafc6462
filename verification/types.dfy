/**
 The records of the roadmap content (types.ts). Every record is immutable:
 the content table is built once and never written.
 */
module Types {
  import opened Wrappers

  /** A checkable learning objective. `completed` is never written at run time;
      completion lives in the dashboard's set of completed ids. */
  datatype Milestone = Milestone(
    id: string,
    title: string,
    description: string,
    completed: bool,
    guide: Option<seq<string>>)

  datatype Difficulty = Easy | Medium | Hard

  datatype Lab = Lab(
    title: string,
    tools: seq<string>,
    objective: string,
    difficulty: Difficulty,
    tooltip: Option<string>)

  datatype Project = Project(
    title: string,
    description: string,
    deliverables: seq<string>)

  /** A topic header; expansion in the dashboard is keyed by `name`. */
  datatype TopicResource = TopicResource(
    name: string,
    resources: seq<string>,
    tooltip: Option<string>)

  /** One month of the curriculum. */
  datatype Phase = Phase(
    id: int,
    month: int,
    title: string,
    focus: string,
    description: string,
    topics: seq<TopicResource>,
    milestones: seq<Milestone>,
    labs: seq<Lab>,
    project: Project,
    icon: string)
}
