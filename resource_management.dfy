/**
 * The moderators' resource list: the search, topic, type and status filters,
 * the icon and colour of each resource type, and the create/edit dialog with
 * its required fields.
 */
module ResourceManagement {
  import opened Common
  import opened Types

  /** The value the server and the type filter use for a resource type. */
  function TypeName(t: ResourceType): Text {
    match t
    case PDF => "PDF"
    case LINK => "LINK"
    case DOCUMENT => "DOCUMENT"
    case VIDEO => "VIDEO"
    case OtherType(name) => name
  }

  // ---------------------------------------------------------------------------
  // Filters

  /** An empty query matches; otherwise the title or a present description contains it. */
  predicate MatchesSearch(r: Resource, query: Text) {
    query == []
    || Includes(Lower(r.title), Lower(query))
    || (r.description.Some? && Includes(Lower(r.description.value), Lower(query)))
  }

  /** "all", or the resource has a topic whose id, written out, is the value. */
  predicate MatchesTopic(r: Resource, filterTopic: Text) {
    filterTopic == "all" || (r.topicId.Some? && IntToString(r.topicId.value) == filterTopic)
  }

  predicate MatchesType(r: Resource, filterType: Text) {
    filterType == "all" || TypeName(r.resourceType) == filterType
  }

  /** "all" keeps every resource, "active" and "inactive" one kind, anything else none. */
  predicate MatchesStatus(r: Resource, filterStatus: Text) {
    filterStatus == "all"
    || (filterStatus == "active" && r.active)
    || (filterStatus == "inactive" && !r.active)
  }

  predicate Listed(r: Resource, query: Text, filterTopic: Text, filterType: Text, filterStatus: Text) {
    MatchesSearch(r, query) && MatchesTopic(r, filterTopic) && MatchesType(r, filterType) && MatchesStatus(r, filterStatus)
  }

  /** filteredResources: the resources that pass all four filters, in order. */
  function FilteredResources(resources: seq<Resource>, query: Text, filterTopic: Text, filterType: Text, filterStatus: Text)
    : (r: seq<Resource>)
    ensures forall x :: x in r <==> x in resources && Listed(x, query, filterTopic, filterType, filterStatus)
    ensures forall x :: (multiset(r)[x] ==
       (if Listed(x, query, filterTopic, filterType, filterStatus) then multiset(resources)[x] else 0))
    ensures IsSubsequence(r, resources)
  {
    var keep := (x: Resource) => Listed(x, query, filterTopic, filterType, filterStatus);
    FilterIsSubsequence(resources, keep);
    FilterCounts(resources, keep);
    Filter(resources, keep)
  }

  /** With every filter at its default the whole list is shown. */
  lemma DefaultFiltersListAll(resources: seq<Resource>)
    ensures FilteredResources(resources, "", "all", "all", "all") == resources
  {
    FilterAll(resources, (x: Resource) => Listed(x, "", "all", "all", "all"));
  }

  /** A resource without a topic is listed only while the topic filter is "all". */
  lemma NoTopicOnlyUnderAll(resources: seq<Resource>, query: Text, filterTopic: Text, filterType: Text, filterStatus: Text, x: Resource)
    requires x.topicId.None?
    ensures x in FilteredResources(resources, query, filterTopic, filterType, filterStatus) ==> filterTopic == "all"
  {
  }

  /**
   * Choosing a topic from the list keeps exactly the resources of that
   * topic among those the other filters keep.
   */
  lemma TopicFilterKeepsTopic(resources: seq<Resource>, query: Text, topicId: int, filterType: Text, filterStatus: Text, x: Resource)
    ensures x in FilteredResources(resources, query, IntToString(topicId), filterType, filterStatus) <==>
      x in FilteredResources(resources, query, "all", filterType, filterStatus) && x.topicId == Some(topicId)
  {
    var t := IntToString(topicId);
    assert t != "all" by {
      assert t[0] != "all"[0];
    }
    if x.topicId.Some? && IntToString(x.topicId.value) == t {
      IntToStringInjective(x.topicId.value, topicId);
    }
  }

  /** Every resource is either listed as active, listed as inactive, but not both. */
  lemma StatusFiltersPartition(resources: seq<Resource>, query: Text, filterTopic: Text, filterType: Text, x: Resource)
    requires x in FilteredResources(resources, query, filterTopic, filterType, "all")
    ensures x in FilteredResources(resources, query, filterTopic, filterType, "active")
      <==> x !in FilteredResources(resources, query, filterTopic, filterType, "inactive")
  {
  }

  // ---------------------------------------------------------------------------
  // Icons and colours

  datatype Icon = FileTextIcon | LinkIcon | VideoIcon

  /** getResourceIcon: documents and PDFs, and unknown types, get the file icon. */
  function ResourceIcon(t: ResourceType): (i: Icon)
    ensures i == LinkIcon <==> t == LINK
    ensures i == VideoIcon <==> t == VIDEO
  {
    match t
    case PDF => FileTextIcon
    case DOCUMENT => FileTextIcon
    case LINK => LinkIcon
    case VIDEO => VideoIcon
    case OtherType(_) => FileTextIcon
  }

  /** getResourceColor */
  function ResourceColor(t: ResourceType): Text {
    match t
    case PDF => "text-red-600 bg-red-50"
    case DOCUMENT => "text-red-600 bg-red-50"
    case LINK => "text-blue-600 bg-blue-50"
    case VIDEO => "text-purple-600 bg-purple-50"
    case OtherType(_) => "text-gray-600 bg-gray-50"
  }

  /**
   * PDF and DOCUMENT look alike; the four known types otherwise look
   * different, and an unknown type is grey with the file icon.
   */
  lemma IconsAndColours(t: ResourceType, u: ResourceType)
    ensures ResourceIcon(PDF) == ResourceIcon(DOCUMENT) && ResourceColor(PDF) == ResourceColor(DOCUMENT)
    ensures !t.OtherType? && !u.OtherType? ==>
      (ResourceColor(t) == ResourceColor(u) <==> t == u || (t in {PDF, DOCUMENT} && u in {PDF, DOCUMENT}))
    ensures t.OtherType? ==> ResourceIcon(t) == FileTextIcon && ResourceColor(t) == "text-gray-600 bg-gray-50"
  {
    if !t.OtherType? && !u.OtherType? && ResourceColor(t) != ResourceColor(u) {
      assert t != u;
    }
    if !t.OtherType? && !u.OtherType? && !(t in {PDF, DOCUMENT} && u in {PDF, DOCUMENT}) && t != u {
      assert ResourceColor(t)[5] != ResourceColor(u)[5] || ResourceColor(t)[6] != ResourceColor(u)[6];
    }
  }

  // ---------------------------------------------------------------------------
  // The dialog

  /** The form (ResourceCreateDto). */
  datatype ResourceForm = ResourceForm(
    title: Text,
    description: Option<Text>,
    resourceType: ResourceType,
    url: Text,
    topicId: int,
    displayOrder: int,
    active: bool)

  /** The blank form: a link, no topic, order 0, active. */
  const BLANK_FORM := ResourceForm("", Some(""), LINK, "", 0, 0, true)

  /** handleOpenDialog with a resource: its fields, a missing topic read as 0. */
  function FormOf(r: Resource): (f: ResourceForm)
    ensures f.title == r.title && f.description == r.description && f.url == r.url
    ensures f.resourceType == r.resourceType && f.displayOrder == r.displayOrder && f.active == r.active
    ensures f.topicId == (if Truthy(r.topicId) then r.topicId.value else 0)
  {
    ResourceForm(r.title, r.description, r.resourceType, r.url, OrZero(r.topicId), r.displayOrder, r.active)
  }

  /** handleSubmit's guard: a title, a url and a topic are required. */
  predicate MaySave(f: ResourceForm) {
    f.title != [] && f.url != [] && f.topicId != 0
  }

  /** A resource with a title, a url and a topic can be saved again unchanged. */
  lemma EditedResourceSavable(r: Resource)
    ensures MaySave(FormOf(r)) <==> r.title != [] && r.url != [] && Truthy(r.topicId)
  {
  }

  datatype Request = Create(form: ResourceForm) | Update(id: int, form: ResourceForm)

  /** The display-order input: `parseInt(value) || 0`. */
  function DisplayOrderInput(value: Text): (n: int)
    ensures ParseInt(value).Num? ==> n == ParseInt(value).n
    ensures ParseInt(value).NaN? ==> n == 0
  {
    ParseIntOr(value, 0)
  }

  /** A number typed in is read back as that number. */
  lemma DisplayOrderReadsBack(n: int)
    ensures DisplayOrderInput(IntToString(n)) == n
  {
    ParseIntOfIntToString(n);
  }

  class ResourceManagementPage {
    var resources: seq<Resource>
    var formData: ResourceForm
    var editingResource: Option<Resource>
    var isDialogOpen: bool
    var searchQuery: Text
    var filterTopic: Text
    var filterType: Text
    var filterStatus: Text

    constructor()
      ensures resources == [] && formData == BLANK_FORM && editingResource.None? && !isDialogOpen
      ensures searchQuery == [] && filterTopic == "all" && filterType == "all" && filterStatus == "all"
    {
      resources := [];
      formData := BLANK_FORM;
      editingResource := None;
      isDialogOpen := false;
      searchQuery := [];
      filterTopic := "all";
      filterType := "all";
      filterStatus := "all";
    }

    /** The list the page shows. */
    function Shown(): seq<Resource>
      reads this
    {
      FilteredResources(resources, searchQuery, filterTopic, filterType, filterStatus)
    }

    /** loadData: the server's resources, or the old list when loading fails. */
    method LoadData(response: Option<seq<Resource>>)
      modifies this`resources
      ensures resources == if response.Some? then response.value else old(resources)
    {
      if response.Some? {
        resources := response.value;
      }
    }

    /** handleOpenDialog: the resource's fields for an edit, the blank form otherwise. */
    method OpenDialog(resource: Option<Resource>)
      modifies this`formData, this`editingResource, this`isDialogOpen
      ensures editingResource == resource && isDialogOpen
      ensures formData == if resource.Some? then FormOf(resource.value) else BLANK_FORM
    {
      editingResource := resource;
      if resource.Some? {
        formData := FormOf(resource.value);
      } else {
        formData := BLANK_FORM;
      }
      isDialogOpen := true;
    }

    method ChangeDisplayOrder(value: Text)
      modifies this`formData
      ensures formData == old(formData).(displayOrder := DisplayOrderInput(value))
    {
      formData := formData.(displayOrder := DisplayOrderInput(value));
    }

    /**
     * handleSubmit: nothing is sent with a required field missing; otherwise
     * an update of the resource being edited, or a creation. When the server
     * `accepted` it the dialog closes and the list is reloaded.
     */
    method Submit(accepted: bool, reload: Option<seq<Resource>>) returns (request: Option<Request>)
      modifies this`isDialogOpen, this`resources
      ensures request.Some? <==> MaySave(old(formData))
      ensures request.Some? && old(editingResource).Some? ==> request.value == Update(old(editingResource).value.id, old(formData))
      ensures request.Some? && old(editingResource).None? ==> request.value == Create(old(formData))
      ensures request.Some? && accepted ==>
        !isDialogOpen && resources == (if reload.Some? then reload.value else old(resources))
      ensures request.None? || !accepted ==> isDialogOpen == old(isDialogOpen) && resources == old(resources)
    {
      request := None;
      if !MaySave(formData) {
        return;
      }
      if editingResource.Some? {
        request := Some(Update(editingResource.value.id, formData));
      } else {
        request := Some(Create(formData));
      }
      if accepted {
        isDialogOpen := false;
        LoadData(reload);
      }
    }
  }
}
