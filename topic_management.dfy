/**
 * The moderators' topic list: the root topics offered as parents, the
 * parent select, and the create/edit dialog with its required fields.
 */
module TopicManagement {
  import opened Common
  import opened Types

  /** getRootTopics: the topics without a (non-zero) parent, in order. */
  function RootTopics(topics: seq<Topic>): (r: seq<Topic>)
    ensures forall t :: t in r <==> t in topics && !Truthy(t.parentTopicId)
    ensures forall t :: multiset(r)[t] == if !Truthy(t.parentTopicId) then multiset(topics)[t] else 0
    ensures IsSubsequence(r, topics)
  {
    FilterIsSubsequence(topics, (t: Topic) => !Truthy(t.parentTopicId));
    FilterCounts(topics, (t: Topic) => !Truthy(t.parentTopicId));
    Filter(topics, (t: Topic) => !Truthy(t.parentTopicId))
  }

  /** Root topics are a fixed point: none of them has a parent. */
  lemma RootTopicsIdempotent(topics: seq<Topic>)
    ensures RootTopics(RootTopics(topics)) == RootTopics(topics)
  {
    FilterAll(RootTopics(topics), (t: Topic) => !Truthy(t.parentTopicId));
  }

  /** The form (CreateTopicDto); the parent is what the select produced. */
  datatype TopicForm = TopicForm(title: Text, description: Text, parentTopicId: Option<JsNumber>)

  const BLANK_FORM := TopicForm("", "", None)

  /** The form filled from a topic. */
  function FormOf(t: Topic): (f: TopicForm)
    ensures f.title == t.title && f.description == t.description
    ensures f.parentTopicId.None? <==> t.parentTopicId.None?
    ensures t.parentTopicId.Some? ==> f.parentTopicId == Some(Num(t.parentTopicId.value))
  {
    TopicForm(t.title, t.description, if t.parentTopicId.Some? then Some(Num(t.parentTopicId.value)) else None)
  }

  // ---------------------------------------------------------------------------
  // The parent select

  /** The select's value: the parent's id as text, or "none" without one. */
  function SelectValue(parent: Option<JsNumber>): Text {
    match parent
    case None => "none"
    case Some(Num(n)) => IntToString(n)
    case Some(NaN) => "NaN"
  }

  /** onValueChange: "none" means no parent, any other value is parseInt of it. */
  function SelectParent(value: Text): (p: Option<JsNumber>)
    ensures p.None? <==> value == "none"
  {
    if value == "none" then None else Some(ParseInt(value))
  }

  /**
   * Round trip: choosing the option the select shows for a parent gives that
   * parent back; choosing a root topic's option gives its id.
   */
  lemma SelectRoundTrip(parent: Option<JsNumber>, root: Topic)
    requires parent != Some(NaN)
    ensures SelectParent(SelectValue(parent)) == parent
    ensures SelectParent(IntToString(root.id)) == Some(Num(root.id))
  {
    SelectNumber(root.id);
    match parent
    case None =>
    case Some(Num(n)) =>
      assert SelectValue(parent) == IntToString(n);
      SelectNumber(n);
  }

  /** The option of a number reads back as that number. */
  lemma SelectNumber(n: int)
    ensures SelectParent(IntToString(n)) == Some(Num(n))
  {
    var s := IntToString(n);
    assert s != "none" by {
      assert s[0] != "none"[0];
    }
    ParseIntOfIntToString(n);
  }

  // ---------------------------------------------------------------------------
  // Saving

  /** handleSubmit's guard: a title and a description are required. */
  predicate MaySave(f: TopicForm) {
    f.title != [] && f.description != []
  }

  datatype Request = Create(form: TopicForm) | Update(id: int, form: TopicForm)

  class TopicManagementPage {
    var topics: seq<Topic>
    var formData: TopicForm
    var editingTopic: Option<Topic>
    var isDialogOpen: bool

    constructor()
      ensures topics == [] && formData == BLANK_FORM && editingTopic.None? && !isDialogOpen
    {
      topics := [];
      formData := BLANK_FORM;
      editingTopic := None;
      isDialogOpen := false;
    }

    /** The topics offered as parents in the dialog. */
    function ParentChoices(): (r: seq<Topic>)
      reads this
      ensures forall t :: t in r ==> t in topics && !Truthy(t.parentTopicId)
    {
      RootTopics(topics)
    }

    method LoadTopics(response: Option<seq<Topic>>)
      modifies this`topics
      ensures topics == if response.Some? then response.value else old(topics)
    {
      if response.Some? {
        topics := response.value;
      }
    }

    /** handleOpenDialog: the topic's fields for an edit, a blank form otherwise. */
    method OpenDialog(topic: Option<Topic>)
      modifies this`formData, this`editingTopic, this`isDialogOpen
      ensures editingTopic == topic && isDialogOpen
      ensures formData == if topic.Some? then FormOf(topic.value) else BLANK_FORM
    {
      editingTopic := topic;
      if topic.Some? {
        formData := FormOf(topic.value);
      } else {
        formData := BLANK_FORM;
      }
      isDialogOpen := true;
    }

    /** The parent select changed to `value`. */
    method ChangeParent(value: Text)
      modifies this`formData
      ensures formData == old(formData).(parentTopicId := SelectParent(value))
    {
      formData := formData.(parentTopicId := SelectParent(value));
    }

    /**
     * handleSubmit: nothing is sent without a title and a description;
     * otherwise the update of the topic being edited, or a creation. When the
     * server `accepted` it the dialog closes and the list is reloaded.
     */
    method Submit(accepted: bool, reload: Option<seq<Topic>>) returns (request: Option<Request>)
      modifies this`isDialogOpen, this`topics
      ensures request.Some? <==> MaySave(old(formData))
      ensures request.Some? ==>
        request.value == (if old(editingTopic).Some? then Update(old(editingTopic).value.id, old(formData)) else Create(old(formData)))
      ensures request.Some? && accepted ==>
        !isDialogOpen && topics == (if reload.Some? then reload.value else old(topics))
      ensures request.None? || !accepted ==> isDialogOpen == old(isDialogOpen) && topics == old(topics)
    {
      request := None;
      if !MaySave(formData) {
        return;
      }
      if editingTopic.Some? {
        request := Some(Update(editingTopic.value.id, formData));
      } else {
        request := Some(Create(formData));
      }
      if accepted {
        isDialogOpen := false;
        LoadTopics(reload);
      }
    }
  }
}
