/** Record shapes shared by the screens of the survey tool (src/lib/types.ts).
    Optional TypeScript properties (`x?: T`) become `Option<T>`; timestamps
    and links are kept as plain strings. */
module Types {

  datatype Option<+T> = None | Some(value: T)

  /** `SurveyStatus` is the closed union "Draft" | "Active" | "Closed". */
  datatype SurveyStatus = Draft | Active | Closed

  /** The string a status is written as inside the application. */
  function StatusName(s: SurveyStatus): (r: string)
    ensures |r| > 0
  {
    match s
    case Draft => "Draft"
    case Active => "Active"
    case Closed => "Closed"
  }

  /** The role union "Admin" | "Moderator" | "User"; the last is `Member` here
      because `User` already names the record. */
  datatype Role = Admin | Moderator | Member

  /** `User`: an employee record; every field after `email` is optional. */
  datatype User = User(
    id: string,
    name: string,
    email: string,
    role: Option<Role>,
    department: Option<string>,
    active: Option<bool>,
    position: Option<string>,
    joinDate: Option<string>,
    profileImage: Option<string>,
    assignedSurveys: Option<seq<string>>,
    completedSurveys: Option<seq<string>>)

  datatype Question = Question(id: string, text: string, createdAt: string, updatedAt: string)

  datatype Template = Template(
    id: string,
    name: string,
    questions: seq<Question>,
    createdAt: string,
    updatedAt: string,
    isUsedInSurveys: bool)

  datatype Survey = Survey(
    id: string,
    name: string,
    status: SurveyStatus,
    template: Template,
    questions: seq<Question>,
    assignedEmployees: seq<User>,
    responses: int,
    createdAt: string,
    updatedAt: string,
    shareLink: string,
    dueDate: Option<string>,
    description: Option<string>,
    isAnonymous: Option<bool>)
}
