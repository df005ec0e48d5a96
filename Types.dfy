/** The records of the application (types.ts). Dates are day numbers and instants are
    integers (milliseconds); optional fields of the source are `Option`s. */
module Types {

  datatype Option<+T> = None | Some(value: T)

  /** The views the sidebar, the header and the command palette switch between. */
  datatype ViewType =
    | Dashboard | Notes | Graph | Tasks | Habits | Study | AiHub | Decisions | Identity | Settings

  /** A page of the vault. `pinned` is optional in the source: `None` is `undefined`. */
  datatype Note = Note(
    id: string,
    title: string,
    content: string,
    tags: seq<string>,
    updatedAt: int,
    createdAt: int,
    folder: string,
    pinned: Option<bool>)

  /** `'todo' | 'in-progress' | 'done'`. */
  datatype Status = Todo | InProgress | Done

  /** `'low' | 'medium' | 'high'`: a task's priority and a decision's impact. */
  datatype Level = Low | Medium | High

  datatype Task = Task(
    id: string,
    title: string,
    description: Option<string>,
    status: Status,
    priority: Level,
    dueDate: Option<string>,
    completedAt: Option<int>)

  /** `'DAILY' | 'WEEKLY'`. */
  datatype Frequency = Daily | Weekly

  /** `'LOW' | 'HIGH'`. */
  datatype HabitImpact = LowImpact | HighImpact

  /** A habit; `logs` holds the days it was done, as day numbers. */
  datatype Habit = Habit(
    id: string,
    name: string,
    streak: int,
    logs: seq<int>,
    frequency: Frequency,
    impact: HabitImpact)

  datatype Decision = Decision(
    id: string,
    title: string,
    date: int,
    context: string,
    pros: seq<string>,
    cons: seq<string>,
    impact: Level)

  datatype QuizQuestion = QuizQuestion(
    id: string,
    question: string,
    options: seq<string>,
    correctAnswer: string,
    explanation: Option<string>)

  datatype Quiz = Quiz(
    id: string,
    title: string,
    folder: string,
    questions: seq<QuizQuestion>,
    bestScore: Option<int>,
    lastAttempted: Option<int>,
    createdAt: int)

  /** `'info' | 'success' | 'ai'`. */
  datatype NotificationKind = Info | Success | Ai

  datatype Notification = Notification(
    id: string,
    message: string,
    kind: NotificationKind,
    timestamp: int)

  datatype IdentityProfile = IdentityProfile(
    name: string,
    archetype: string,
    philosophy: string,
    values: seq<string>,
    principles: seq<string>,
    antiGoals: seq<string>,
    longTermGoals: seq<string>)
}
