/** The study module (components/StudyModule.tsx): the quiz folder list and filter, quiz
    deletion, and the state of one quiz session. */
module StudyModule {
  import opened Types
  import Seqs
  import Strings

  // ---------------------------------------------------------------------------
  // The quiz vault

  /** `quizzes.map(q => q.folder)`. */
  function FolderList(quizzes: seq<Quiz>): (fs: seq<string>)
    ensures |fs| == |quizzes|
    ensures forall i :: 0 <= i < |quizzes| ==> fs[i] == quizzes[i].folder
  {
    seq(|quizzes|, i requires 0 <= i < |quizzes| => quizzes[i].folder)
  }

  /** `Array.from(new Set(quizzes.map(q => q.folder)))`. */
  function Folders(quizzes: seq<Quiz>): seq<string> {
    Seqs.Dedup(FolderList(quizzes))
  }

  /** Each folder in use is listed once, nothing else is, and in order of first use. */
  lemma FoldersSpec(quizzes: seq<Quiz>)
    ensures Seqs.Distinct(Folders(quizzes))
    ensures forall f :: f in Folders(quizzes) <==> exists i :: 0 <= i < |quizzes| && quizzes[i].folder == f
    ensures forall i, j :: 0 <= i < j < |Folders(quizzes)| ==>
      Seqs.FirstIndex(FolderList(quizzes), Folders(quizzes)[i]) < Seqs.FirstIndex(FolderList(quizzes), Folders(quizzes)[j])
  {
    var fs := FolderList(quizzes);
    Seqs.DedupFirstAppearanceOrder(fs);
    forall f ensures f in Folders(quizzes) <==> exists i :: 0 <= i < |quizzes| && quizzes[i].folder == f {
      if f in fs {
        var i :| 0 <= i < |fs| && fs[i] == f;
        assert quizzes[i].folder == f;
      }
    }
  }

  /** The filter: the search is empty or found, case-insensitively, in the title (and only
      the title); and no folder is active (`null` or `''`) or the quiz is in it. */
  predicate Keep(q: Quiz, search: string, activeFolder: Option<string>) {
    (search == "" || Strings.Matches(q.title, search))
    && (activeFolder == None || activeFolder == Some("") || Some(q.folder) == activeFolder)
  }

  /** `filteredQuizzes`. */
  function FilteredQuizzes(quizzes: seq<Quiz>, search: string, activeFolder: Option<string>): seq<Quiz> {
    Seqs.Filter(quizzes, (q: Quiz) => Keep(q, search, activeFolder))
  }

  /** The list holds exactly the quizzes that pass, in vault order; with no search and no
      folder it is the whole vault. */
  lemma FilteredQuizzesSpec(quizzes: seq<Quiz>, search: string, activeFolder: Option<string>)
    ensures forall q :: q in FilteredQuizzes(quizzes, search, activeFolder) <==> q in quizzes && Keep(q, search, activeFolder)
    ensures FilteredQuizzes(quizzes, "", None) == quizzes
  {
    var p := (q: Quiz) => Keep(q, search, activeFolder);
    forall q ensures q in FilteredQuizzes(quizzes, search, activeFolder) <==> q in quizzes && Keep(q, search, activeFolder) {
      Seqs.FilterMembers(quizzes, p, q);
    }
    Seqs.FilterPasses(quizzes, (q: Quiz) => Keep(q, "", None));
  }

  /** Only the title is searched: a quiz whose title does not contain the search is left
      out whatever its questions say. */
  lemma TitleOnly(q: Quiz, quizzes: seq<Quiz>, search: string, activeFolder: Option<string>)
    requires search != "" && !Strings.Matches(q.title, search)
    ensures q !in FilteredQuizzes(quizzes, search, activeFolder)
  {
    Seqs.FilterMembers(quizzes, (x: Quiz) => Keep(x, search, activeFolder), q);
  }

  /** `deleteQuiz`: `quizzes.filter(q => q.id !== id)`. */
  function DeleteQuiz(quizzes: seq<Quiz>, id: string): seq<Quiz> {
    Seqs.Filter(quizzes, (q: Quiz) => q.id != id)
  }

  /** Exactly the quizzes with that id go; the rest keep their order. */
  lemma DeleteQuizSpec(quizzes: seq<Quiz>, id: string)
    ensures forall q :: q in DeleteQuiz(quizzes, id) <==> q in quizzes && q.id != id
    ensures (forall i :: 0 <= i < |quizzes| ==> quizzes[i].id != id) ==> DeleteQuiz(quizzes, id) == quizzes
    ensures |DeleteQuiz(quizzes, id)| <= |quizzes|
  {
    var p := (q: Quiz) => q.id != id;
    forall q ensures q in DeleteQuiz(quizzes, id) <==> q in quizzes && q.id != id {
      Seqs.FilterMembers(quizzes, p, q);
    }
    Seqs.FilterPasses(quizzes, p);
  }

  // ---------------------------------------------------------------------------
  // A quiz session

  datatype Mode = Vault | QuizPlay | MindMap | Lab

  /** Whether the chosen option scores on the current question. */
  predicate Correct(quiz: Option<Quiz>, qIndex: nat, opt: string) {
    quiz.Some? && qIndex < |quiz.value.questions| && opt == quiz.value.questions[qIndex].correctAnswer
  }

  /** The session fields of the module. */
  class Session {
    var mode: Mode
    var activeQuiz: Option<Quiz>
    var qIndex: nat
    var selectedOption: Option<string>
    var score: nat
    var showExplanation: bool
    var finished: bool

    /** The module opens on the vault with no quiz. */
    constructor()
      ensures mode == Vault && activeQuiz == None && qIndex == 0 && selectedOption == None
      ensures score == 0 && !showExplanation && !finished
      ensures Valid()
    {
      mode := Vault;
      activeQuiz := None;
      qIndex := 0;
      selectedOption := None;
      score := 0;
      showExplanation := false;
      finished := false;
    }

    /** At most one point per question reached, counting the current one only once it is
        answered; the index stays on a question; the explanation shows only after an
        answer. */
    ghost predicate Valid()
      reads this
    {
      score <= qIndex + (if selectedOption.Some? then 1 else 0)
      && (activeQuiz.Some? && activeQuiz.value.questions != [] ==> qIndex < |activeQuiz.value.questions|)
      && (showExplanation ==> selectedOption.Some?)
    }

    /** `startQuiz`: a fresh session on `quiz`. */
    method StartQuiz(quiz: Quiz)
      modifies this
      ensures activeQuiz == Some(quiz) && qIndex == 0 && !finished && score == 0
      ensures selectedOption == None && !showExplanation && mode == QuizPlay
      ensures Valid()
    {
      activeQuiz := Some(quiz);
      qIndex := 0;
      finished := false;
      score := 0;
      selectedOption := None;
      showExplanation := false;
      mode := QuizPlay;
    }

    /** `handleOptionSelect`: the first answer to a question is recorded and scored, and
        any later one is ignored. */
    method SelectOption(opt: string)
      requires Valid()
      modifies this
      ensures Valid()
      ensures old(selectedOption).Some? ==> unchanged(this)
      ensures old(selectedOption).None? ==>
        selectedOption == Some(opt) && showExplanation
        && score == old(score) + (if Correct(activeQuiz, qIndex, opt) then 1 else 0)
        && qIndex == old(qIndex) && activeQuiz == old(activeQuiz) && finished == old(finished) && mode == old(mode)
    {
      if selectedOption.Some? {
        return;
      }
      selectedOption := Some(opt);
      if Correct(activeQuiz, qIndex, opt) {
        score := score + 1;
      }
      showExplanation := true;
    }

    /** `nextQuestion`: on to the next question, or, on the last one, the session is over
        and the index stays. */
    method NextQuestion()
      requires Valid()
      modifies this
      ensures Valid()
      ensures old(activeQuiz).None? ==> unchanged(this)
      ensures old(activeQuiz).Some? && old(qIndex) + 1 < |old(activeQuiz).value.questions| ==>
        qIndex == old(qIndex) + 1 && selectedOption == None && !showExplanation
        && score == old(score) && finished == old(finished)
      ensures old(activeQuiz).Some? && old(qIndex) + 1 >= |old(activeQuiz).value.questions| ==>
        finished && qIndex == old(qIndex) && selectedOption == old(selectedOption)
        && showExplanation == old(showExplanation) && score == old(score)
      ensures activeQuiz == old(activeQuiz) && mode == old(mode)
    {
      if activeQuiz.None? {
        return;
      }
      if qIndex + 1 < |activeQuiz.value.questions| {
        qIndex := qIndex + 1;
        selectedOption := None;
        showExplanation := false;
      } else {
        finished := true;
      }
    }
  }
}
