/** The previous-year-question page: the upload form with its required-field
    check and reset, the course, semester and papers views and the moves
    between them, and the subject search inside a course. */
module Pyq {
  import opened Lists
  import opened Text

  /** A file the browser handed over; only its identity matters here. */
  datatype FileRef = FileRef(name: string)

  datatype UploadForm = UploadForm(
    course: string,
    subject: string,
    semester: string,
    year: string,
    paperTitle: string,
    hasAnswers: bool,
    file: Option<FileRef>)

  /** The form as the page opens it and as a successful upload leaves it. */
  const InitialForm: UploadForm := UploadForm([], [], "1", [], [], false, None)

  /** The `name` of the text input or select that changed. */
  datatype FormField = Course | Subject | Semester | Year | PaperTitle

  function FieldValue(f: UploadForm, field: FormField): string {
    match field
    case Course => f.course
    case Subject => f.subject
    case Semester => f.semester
    case Year => f.year
    case PaperTitle => f.paperTitle
  }

  /** `{ ...prev, [name]: value }`: the named field takes the value, every other field is kept. */
  function WithField(f: UploadForm, field: FormField, value: string): (g: UploadForm)
    ensures FieldValue(g, field) == value
    ensures forall other :: other != field ==> FieldValue(g, other) == FieldValue(f, other)
    ensures g.hasAnswers == f.hasAnswers && g.file == f.file
  {
    match field
    case Course => f.(course := value)
    case Subject => f.(subject := value)
    case Semester => f.(semester := value)
    case Year => f.(year := value)
    case PaperTitle => f.(paperTitle := value)
  }

  /** The check at the top of `handleUpload`: a file and non-empty course,
      subject, paper title and year. */
  predicate ReadyToUpload(f: UploadForm) {
    f.file.Some? && f.course != [] && f.subject != [] && f.paperTitle != [] && f.year != []
  }

  /** The semester and the answers flag are not required: changing them never
      changes whether the form may be sent, and the fresh form may not be. */
  lemma OptionalFields(f: UploadForm, semester: string, hasAnswers: bool)
    ensures ReadyToUpload(f.(semester := semester, hasAnswers := hasAnswers)) <==> ReadyToUpload(f)
    ensures !ReadyToUpload(InitialForm)
  {
  }

  /** `hasAnswers === 'true'`, the upload server's reading of the flag. */
  predicate DecodeHasAnswers(s: string) {
    s == "true"
  }

  /** `String(hasAnswers)`; the server's reading gives the flag back. */
  function EncodeHasAnswers(b: bool): (s: string)
    ensures DecodeHasAnswers(s) == b
    ensures s == "true" || s == "false"
  {
    if b then "true" else "false"
  }

  /** The multipart fields of the upload request. */
  datatype UploadRequest = UploadRequest(
    course: string,
    subject: string,
    semester: string,
    year: string,
    paperTitle: string,
    hasAnswers: string,
    pyqFile: FileRef)

  function RequestOf(f: UploadForm): (r: UploadRequest)
    requires ReadyToUpload(f)
    ensures DecodeHasAnswers(r.hasAnswers) == f.hasAnswers && r.pyqFile == f.file.value
  {
    UploadRequest(f.course, f.subject, f.semester, f.year, f.paperTitle, EncodeHasAnswers(f.hasAnswers), f.file.value)
  }

  datatype UploadOutcome = MissingInformation | Sent(request: UploadRequest, accepted: bool)

  /** The three views of the page. */
  datatype View = CourseList | SemesterList(course: string) | PaperList(course: string, semester: string)

  /** `!selectedCourse ? … : !selectedSemester ? … : …`. */
  function ViewOf(selectedCourse: Option<string>, selectedSemester: Option<string>): (v: View)
    ensures v.CourseList? <==> !Truthy(selectedCourse)
    ensures v.SemesterList? <==> Truthy(selectedCourse) && !Truthy(selectedSemester)
    ensures v.PaperList? <==> Truthy(selectedCourse) && Truthy(selectedSemester)
    ensures !v.CourseList? ==> v.course == selectedCourse.value
    ensures v.PaperList? ==> v.semester == selectedSemester.value
  {
    if !Truthy(selectedCourse) then CourseList
    else if !Truthy(selectedSemester) then SemesterList(selectedCourse.value)
    else PaperList(selectedCourse.value, selectedSemester.value)
  }

  datatype CourseInfo = CourseInfo(id: string, name: string, subjects: seq<string>)

  /** The course catalogue (icons and colours left out). */
  const Catalog: seq<CourseInfo> := [
    CourseInfo("cse", "Computer Science Engineering",
      ["Mathematics", "Physics", "Chemistry", "Programming", "Data Structures", "Computer Networks"]),
    CourseInfo("ece", "Electronics & Communication",
      ["Mathematics", "Physics", "Electronics", "Signal Processing", "Communication Systems", "Microprocessors"]),
    CourseInfo("me", "Mechanical Engineering",
      ["Mathematics", "Physics", "Engineering Mechanics", "Thermodynamics", "Fluid Mechanics", "Machine Design"]),
    CourseInfo("ce", "Civil Engineering",
      ["Mathematics", "Physics", "Engineering Mechanics", "Structural Analysis", "Concrete Technology", "Surveying"]),
    CourseInfo("ee", "Electrical Engineering",
      ["Mathematics", "Physics", "Circuit Analysis", "Power Systems", "Control Systems", "Electrical Machines"]),
    CourseInfo("design", "Design Engineering",
      ["Design Fundamentals", "CAD", "Materials", "Aesthetics", "Product Design", "Industrial Design"])
  ]

  function CourseIdIs(selected: Option<string>): CourseInfo -> bool {
    (c: CourseInfo) => Some(c.id) == selected
  }

  /** `courses.find(course => course.id === selectedCourse)`; the page looks
      the selection up in `Catalog` (see `PyqPage.SubjectCards`). */
  function SelectedCourseData(catalog: seq<CourseInfo>, selected: Option<string>): (r: Option<CourseInfo>)
    ensures r.Some? ==> r.value in catalog && selected == Some(r.value.id)
    ensures r.None? ==> forall c :: c in catalog ==> selected != Some(c.id)
  {
    match FindIndex(catalog, CourseIdIs(selected))
    case None => None
    case Some(i) => Some(catalog[i])
  }

  function SubjectMatches(term: string): string -> bool {
    (subject: string) => Includes(Lower(subject), Lower(term))
  }

  /** The subject search of the papers view. */
  function SearchSubjects(subjects: seq<string>, term: string): (r: seq<string>)
    ensures |r| <= |subjects|
  {
    Filter(subjects, SubjectMatches(term))
  }

  /** A subject is shown exactly when the term occurs in it, ignoring case;
      the order of the catalogue is kept; an empty term shows every subject. */
  lemma SearchSubjectsMeaning(subjects: seq<string>, term: string, subject: string)
    ensures subject in SearchSubjects(subjects, term) <==>
              subject in subjects && exists i: nat :: OccursAt(Lower(subject), Lower(term), i)
    ensures forall xs, ys :: subjects == xs + ys ==>
              SearchSubjects(subjects, term) == SearchSubjects(xs, term) + SearchSubjects(ys, term)
    ensures SearchSubjects(subjects, "") == subjects
  {
    FilterMembership(subjects, SubjectMatches(term), subject);
    IncludesAt(Lower(subject), Lower(term));
    forall xs, ys | subjects == xs + ys
      ensures SearchSubjects(subjects, term) == SearchSubjects(xs, term) + SearchSubjects(ys, term)
    {
      FilterConcat(xs, ys, SubjectMatches(term));
    }
    forall s | s in subjects ensures SubjectMatches("")(s) {
      IncludesEmptyAndSelf(Lower(s));
    }
    FilterAll(subjects, SubjectMatches(""));
  }

  /** The subjects the papers view lists: only subjects of the selected
      course, and none when the selected id is not in the catalogue. */
  function ShownSubjects(catalog: seq<CourseInfo>, selectedCourse: Option<string>, term: string): (r: seq<string>)
    ensures forall s :: s in r ==> exists c :: c in catalog && Some(c.id) == selectedCourse && s in c.subjects
    ensures (forall c :: c in catalog ==> selectedCourse != Some(c.id)) ==> r == []
    ensures SelectedCourseData(catalog, selectedCourse).Some? ==>
              r == SearchSubjects(SelectedCourseData(catalog, selectedCourse).value.subjects, term)
  {
    match SelectedCourseData(catalog, selectedCourse)
    case None => []
    case Some(c) => SearchSubjects(c.subjects, term)
  }

  class PyqPage {
    var selectedCourse: Option<string>
    var selectedSemester: Option<string>
    var searchTerm: string
    var uploadForm: UploadForm
    var uploadOpen: bool

    /** A semester is chosen only inside a chosen course. */
    ghost predicate Valid()
      reads this
    {
      Truthy(selectedSemester) ==> Truthy(selectedCourse)
    }

    constructor()
      ensures selectedCourse == None && selectedSemester == None && searchTerm == []
      ensures uploadForm == InitialForm && !uploadOpen
      ensures Valid() && ViewOf(selectedCourse, selectedSemester) == CourseList
    {
      selectedCourse := None;
      selectedSemester := None;
      searchTerm := [];
      uploadForm := InitialForm;
      uploadOpen := false;
    }

    /** `handleFormChange`. */
    method FormChange(field: FormField, value: string)
      modifies this
      ensures uploadForm == WithField(old(uploadForm), field, value)
      ensures selectedCourse == old(selectedCourse) && selectedSemester == old(selectedSemester)
      ensures searchTerm == old(searchTerm) && uploadOpen == old(uploadOpen)
    {
      uploadForm := WithField(uploadForm, field, value);
    }

    /** `handleFileChange`: the first chosen file; an empty choice changes nothing. */
    method FileChange(files: seq<FileRef>)
      modifies this
      ensures files != [] ==> uploadForm == old(uploadForm).(file := Some(files[0]))
      ensures files == [] ==> uploadForm == old(uploadForm)
      ensures selectedCourse == old(selectedCourse) && selectedSemester == old(selectedSemester)
      ensures searchTerm == old(searchTerm) && uploadOpen == old(uploadOpen)
    {
      if files != [] {
        uploadForm := uploadForm.(file := Some(files[0]));
      }
    }

    /** `handleCheckboxChange`. */
    method CheckboxChange(checked: bool)
      modifies this
      ensures uploadForm == old(uploadForm).(hasAnswers := checked)
      ensures selectedCourse == old(selectedCourse) && selectedSemester == old(selectedSemester)
      ensures searchTerm == old(searchTerm) && uploadOpen == old(uploadOpen)
    {
      uploadForm := uploadForm.(hasAnswers := checked);
    }

    /** The dialog's `onOpenChange={setIsUploadOpen}`: the "Upload PYQ" trigger
        opens it, closing it shuts it; nothing else changes. */
    method SetUploadOpen(open: bool)
      modifies this
      ensures uploadOpen == open
      ensures uploadForm == old(uploadForm) && searchTerm == old(searchTerm)
      ensures selectedCourse == old(selectedCourse) && selectedSemester == old(selectedSemester)
    {
      uploadOpen := open;
    }

    /** `handleUpload`, run by the submit button inside the open dialog;
        `accepted` is whether the upload server answered
        without error. Success closes the dialog and resets the form; a
        failure keeps both. */
    method Upload(accepted: bool) returns (outcome: UploadOutcome)
      requires uploadOpen
      modifies this
      ensures !ReadyToUpload(old(uploadForm)) ==>
                outcome == MissingInformation && uploadForm == old(uploadForm) && uploadOpen == old(uploadOpen)
      ensures ReadyToUpload(old(uploadForm)) ==> outcome == Sent(RequestOf(old(uploadForm)), accepted)
      ensures ReadyToUpload(old(uploadForm)) && accepted ==> uploadForm == InitialForm && !uploadOpen
      ensures ReadyToUpload(old(uploadForm)) && !accepted ==>
                uploadForm == old(uploadForm) && uploadOpen == old(uploadOpen)
      ensures selectedCourse == old(selectedCourse) && selectedSemester == old(selectedSemester)
      ensures searchTerm == old(searchTerm)
    {
      if !ReadyToUpload(uploadForm) {
        return MissingInformation;
      }
      outcome := Sent(RequestOf(uploadForm), accepted);
      if accepted {
        uploadOpen := false;
        uploadForm := InitialForm;
      }
    }

    /** A course card: `setSelectedCourse(course.id)`. */
    method SelectCourse(id: string)
      modifies this
      ensures selectedCourse == Some(id) && selectedSemester == old(selectedSemester)
      ensures searchTerm == old(searchTerm) && uploadForm == old(uploadForm) && uploadOpen == old(uploadOpen)
      ensures id != [] && old(ViewOf(selectedCourse, selectedSemester)) == CourseList && old(Valid()) ==>
                Valid() && ViewOf(selectedCourse, selectedSemester) == SemesterList(id)
    {
      selectedCourse := Some(id);
    }

    /** A semester card: `setSelectedSemester(semester.id)`. */
    method SelectSemester(id: string)
      modifies this
      ensures selectedSemester == Some(id) && selectedCourse == old(selectedCourse)
      ensures searchTerm == old(searchTerm) && uploadForm == old(uploadForm) && uploadOpen == old(uploadOpen)
      ensures id != [] && old(ViewOf(selectedCourse, selectedSemester)).SemesterList? ==>
                Valid() && ViewOf(selectedCourse, selectedSemester) == PaperList(selectedCourse.value, id)
    {
      selectedSemester := Some(id);
    }

    /** `handleBackToCourses`: both selections cleared. */
    method BackToCourses()
      modifies this
      ensures selectedCourse == None && selectedSemester == None
      ensures searchTerm == old(searchTerm) && uploadForm == old(uploadForm) && uploadOpen == old(uploadOpen)
      ensures Valid() && ViewOf(selectedCourse, selectedSemester) == CourseList
    {
      selectedCourse := None;
      selectedSemester := None;
    }

    /** `handleBackToSemesters`: only the semester cleared. */
    method BackToSemesters()
      modifies this
      ensures selectedSemester == None && selectedCourse == old(selectedCourse)
      ensures searchTerm == old(searchTerm) && uploadForm == old(uploadForm) && uploadOpen == old(uploadOpen)
      ensures Truthy(selectedCourse) ==> ViewOf(selectedCourse, selectedSemester) == SemesterList(selectedCourse.value)
      ensures Valid()
    {
      selectedSemester := None;
    }

    /** The search box of the papers view. */
    method SetSearchTerm(term: string)
      modifies this
      ensures searchTerm == term
      ensures selectedCourse == old(selectedCourse) && selectedSemester == old(selectedSemester)
      ensures uploadForm == old(uploadForm) && uploadOpen == old(uploadOpen)
    {
      searchTerm := term;
    }

    /** The subject cards the papers view renders for the current selection
        and search, looked up in `Catalog`. */
    function SubjectCards(): (r: seq<string>)
      reads this
      ensures forall s :: s in r ==> exists c :: c in Catalog && Some(c.id) == selectedCourse && s in c.subjects
      ensures SelectedCourseData(Catalog, selectedCourse).Some? ==>
                r == SearchSubjects(SelectedCourseData(Catalog, selectedCourse).value.subjects, searchTerm)
    {
      ShownSubjects(Catalog, selectedCourse, searchTerm)
    }
  }
}
