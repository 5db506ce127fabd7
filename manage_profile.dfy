/**
 * An expert's profile editor: the profile form, the list of offered services with its
 * add/edit form, and the list of videos. The database answers are parameters: a flag
 * saying whether the write failed, and the id the database gives a new row.
 */
module ManageProfile {
  import opened Wrappers
  import opened Strings
  import opened Seqs

  /** A row of `expert_services` (timestamps left out). */
  datatype Service = Service(
    id: string,
    title: string,
    serviceType: string,
    description: Option<string>,
    price: real,
    availabilitySlots: int,
    isActive: bool,
    expertId: string)

  /** A row of `expert_videos` (timestamp left out). */
  datatype Video = Video(id: string, expertId: string, url: string)

  /** The service form: every field is the text of an input. */
  datatype ServiceForm = ServiceForm(serviceType: string, title: string, description: string,
                                     price: string, availabilitySlots: string)

  const EmptyServiceForm := ServiceForm("", "", "", "", "")

  /** The text columns of a `profiles` row, and whether it is an expert. */
  datatype Profile = Profile(
    id: string,
    firstName: Option<string>, lastName: Option<string>, bio: Option<string>,
    location: Option<string>, instagramUrl: Option<string>, facebookUrl: Option<string>,
    linkedinUrl: Option<string>, profileBio: Option<string>, homeCountry: Option<string>,
    isExpert: bool)

  /** The profile form; the same nine fields as text. */
  datatype ProfileForm = ProfileForm(
    firstName: string, lastName: string, bio: string, location: string,
    instagramUrl: string, facebookUrl: string, linkedinUrl: string, profileBio: string,
    homeCountry: string)

  /** The nine text columns of a profile, in form order. */
  function ProfileColumns(p: Profile): seq<Option<string>> {
    [p.firstName, p.lastName, p.bio, p.location, p.instagramUrl, p.facebookUrl,
     p.linkedinUrl, p.profileBio, p.homeCountry]
  }

  /** The nine fields of a form, in the same order. */
  function FormFields(f: ProfileForm): seq<string> {
    [f.firstName, f.lastName, f.bio, f.location, f.instagramUrl, f.facebookUrl,
     f.linkedinUrl, f.profileBio, f.homeCountry]
  }

  /** The form filled from a loaded profile: each field takes its column, a null column
      becomes the empty text. */
  function FormOf(p: Profile): (f: ProfileForm)
    ensures |FormFields(f)| == |ProfileColumns(p)|
    ensures forall i :: 0 <= i < |FormFields(f)| ==>
      (ProfileColumns(p)[i].None? ==> FormFields(f)[i] == "")
      && (ProfileColumns(p)[i].Some? ==> FormFields(f)[i] == ProfileColumns(p)[i].value)
  {
    ProfileForm(p.firstName.GetOr(""), p.lastName.GetOr(""), p.bio.GetOr(""),
                p.location.GetOr(""), p.instagramUrl.GetOr(""), p.facebookUrl.GetOr(""),
                p.linkedinUrl.GetOr(""), p.profileBio.GetOr(""), p.homeCountry.GetOr(""))
  }

  /** One entry of the service-type drop-down. */
  datatype ServiceTypeOption = ServiceTypeOption(value: string, title: string)

  const ServiceTypeOptions: seq<ServiceTypeOption> := [
    ServiceTypeOption("30_min", "1:1 Coaching (30 Minutes)"),
    ServiceTypeOption("1_hour", "1:1 Coaching (1 Hour)"),
    ServiceTypeOption("1_week", "1:1 Coaching (1 Week)"),
    ServiceTypeOption("1_month", "1:1 Coaching (1 Month)")
  ]

  /** The title of the first option with this value, or "" when none has it. */
  function TitleIn(options: seq<ServiceTypeOption>, value: string): (r: string)
    ensures (forall i :: 0 <= i < |options| ==> options[i].value != value) ==> r == ""
    ensures (exists i :: 0 <= i < |options| && options[i].value == value) ==>
      exists i :: 0 <= i < |options| && options[i].value == value && r == options[i].title
    decreases |options|
  {
    if options == [] then ""
    else if options[0].value == value then options[0].title
    else
      assert forall i :: 1 <= i < |options| ==> options[i] == options[1..][i - 1];
      TitleIn(options[1..], value)
  }

  /** The title `handleServiceTypeChange` fills in. */
  function TitleFor(value: string): (r: string)
    ensures r == "" <==> forall i :: 0 <= i < |ServiceTypeOptions| ==> ServiceTypeOptions[i].value != value
    ensures r != "" ==> exists i :: 0 <= i < |ServiceTypeOptions| && ServiceTypeOptions[i].value == value
                                        && ServiceTypeOptions[i].title == r
  {
    TitleIn(ServiceTypeOptions, value)
  }

  /** Each of the four values picks its own title. */
  lemma TitlesOfTheFourTypes()
    ensures TitleFor("30_min") == "1:1 Coaching (30 Minutes)"
    ensures TitleFor("1_hour") == "1:1 Coaching (1 Hour)"
    ensures TitleFor("1_week") == "1:1 Coaching (1 Week)"
    ensures TitleFor("1_month") == "1:1 Coaching (1 Month)"
  {
  }

  /** The form loaded for editing a service: a null description becomes "", and the
      price and slot count are shown as the given renderings of those numbers. */
  function EditForm(s: Service, priceText: string, slotsText: string): (f: ServiceForm)
    ensures f.serviceType == s.serviceType && f.title == s.title
    ensures f.description == s.description.GetOr("")
    ensures f.price == priceText && f.availabilitySlots == slotsText
  {
    ServiceForm(s.serviceType, s.title, s.description.GetOr(""), priceText, slotsText)
  }

  /** The service row the add handler inserts: the form's texts, an empty description
      stored as null, the parsed price and slot count, active, owned by the profile. */
  function NewService(id: string, expertId: string, form: ServiceForm, price: real, slots: int)
    : (s: Service)
    ensures s.id == id && s.expertId == expertId && s.isActive
    ensures s.title == form.title && s.serviceType == form.serviceType
    ensures s.description.None? <==> form.description == ""
    ensures s.description.Some? ==> s.description.value == form.description
    ensures s.price == price && s.availabilitySlots == slots
  {
    Service(id, form.title, form.serviceType,
            if form.description == "" then None else Some(form.description),
            price, slots, true, expertId)
  }

  /** `{ ...service, ...serviceFormData, price, availability_slots }`: the form's fields
      over the row. The description becomes the form's text as it is, even when empty. */
  function Merge(s: Service, form: ServiceForm, price: real, slots: int): (r: Service)
    ensures r.id == s.id && r.isActive == s.isActive && r.expertId == s.expertId
    ensures r.title == form.title && r.serviceType == form.serviceType
    ensures r.description == Some(form.description)
    ensures r.price == price && r.availabilitySlots == slots
  {
    s.(title := form.title, serviceType := form.serviceType, description := Some(form.description),
       price := price, availabilitySlots := slots)
  }

  /** The local update after a successful write: every row with the edited id merged
      with the form, every other row as it was, the length unchanged. */
  function ReplaceById(services: seq<Service>, id: string, form: ServiceForm, price: real, slots: int)
    : (r: seq<Service>)
    ensures |r| == |services|
    ensures forall i :: 0 <= i < |r| && services[i].id == id ==> r[i] == Merge(services[i], form, price, slots)
    ensures forall i :: 0 <= i < |r| && services[i].id != id ==> r[i] == services[i]
    ensures forall i :: 0 <= i < |r| ==> r[i].id == services[i].id
  {
    seq(|services|, i requires 0 <= i < |services| =>
      if services[i].id == id then Merge(services[i], form, price, slots) else services[i])
  }

  /** Repeating the same update changes nothing more. */
  lemma ReplaceByIdIdempotent(services: seq<Service>, id: string, form: ServiceForm, price: real, slots: int)
    ensures ReplaceById(ReplaceById(services, id, form, price, slots), id, form, price, slots)
         == ReplaceById(services, id, form, price, slots)
  {
  }

  /** An update for an id no row has leaves the list as it was. */
  lemma ReplaceMissingId(services: seq<Service>, id: string, form: ServiceForm, price: real, slots: int)
    requires forall i :: 0 <= i < |services| ==> services[i].id != id
    ensures ReplaceById(services, id, form, price, slots) == services
  {
  }

  /** The service rows whose id is not `id`. */
  function WithoutService(services: seq<Service>, id: string): (r: seq<Service>)
    ensures forall i :: 0 <= i < |r| ==> r[i].id != id
    ensures forall i :: 0 <= i < |services| && services[i].id != id ==> services[i] in r
    ensures forall i :: 0 <= i < |r| ==> r[i] in services
    ensures |r| == |services| - Count(services, (s: Service) => s.id == id)
  {
    FilterKeeps(services, (s: Service) => s.id != id);
    CountComplement(services, (s: Service) => s.id == id, (s: Service) => s.id != id);
    Filter(services, (s: Service) => s.id != id)
  }

  /** The video rows whose id is not `id`. */
  function WithoutVideo(videos: seq<Video>, id: string): (r: seq<Video>)
    ensures forall i :: 0 <= i < |r| ==> r[i].id != id
    ensures forall i :: 0 <= i < |videos| && videos[i].id != id ==> videos[i] in r
    ensures forall i :: 0 <= i < |r| ==> r[i] in videos
    ensures |r| == |videos| - Count(videos, (v: Video) => v.id == id)
  {
    FilterKeeps(videos, (v: Video) => v.id != id);
    CountComplement(videos, (v: Video) => v.id == id, (v: Video) => v.id != id);
    Filter(videos, (v: Video) => v.id != id)
  }

  /** Removal keeps the order of the rest: it works piecewise over any split of the list. */
  lemma WithoutServiceSplits(a: seq<Service>, b: seq<Service>, id: string)
    ensures WithoutService(a + b, id) == WithoutService(a, id) + WithoutService(b, id)
  {
    FilterAppend(a, b, (s: Service) => s.id != id);
  }

  /** The same for videos. */
  lemma WithoutVideoSplits(a: seq<Video>, b: seq<Video>, id: string)
    ensures WithoutVideo(a + b, id) == WithoutVideo(a, id) + WithoutVideo(b, id)
  {
    FilterAppend(a, b, (v: Video) => v.id != id);
  }

  /** Removing an id no row has changes nothing. */
  lemma WithoutMissingService(services: seq<Service>, id: string)
    requires forall i :: 0 <= i < |services| ==> services[i].id != id
    ensures WithoutService(services, id) == services
  {
    FilterAll(services, (s: Service) => s.id != id);
  }

  /** What the service and video writes report. */
  datatype Outcome = Skipped | WriteFailed | Done

  /** The page's state. */
  class ProfileEditor {
    var profile: Option<Profile>
    var form: ProfileForm
    var services: seq<Service>
    var videos: seq<Video>
    var editingService: Option<Service>
    var showAddService: bool
    var serviceForm: ServiceForm
    var newVideoUrl: string

    constructor ()
      ensures profile == None && services == [] && videos == [] && editingService == None
      ensures !showAddService && serviceForm == EmptyServiceForm && newVideoUrl == ""
      ensures form == ProfileForm("", "", "", "", "", "", "", "", "")
    {
      profile, services, videos, editingService := None, [], [], None;
      showAddService, serviceForm, newVideoUrl := false, EmptyServiceForm, "";
      form := ProfileForm("", "", "", "", "", "", "", "", "");
    }

    /** `fetchProfile`: on a profile reply the form is filled from it, and for an expert
        each list is replaced by its reply unless that query failed; on an error
        nothing changes. */
    method LoadProfile(reply: Option<Profile>, servicesReply: Option<seq<Service>>,
                       videosReply: Option<seq<Video>>)
      modifies this
      ensures reply.None? ==>
        profile == old(profile) && form == old(form) && services == old(services) && videos == old(videos)
      ensures reply.Some? ==> profile == reply && form == FormOf(reply.value)
      ensures reply.Some? && reply.value.isExpert && servicesReply.Some? ==> services == servicesReply.value
      ensures !(reply.Some? && reply.value.isExpert && servicesReply.Some?) ==> services == old(services)
      ensures reply.Some? && reply.value.isExpert && videosReply.Some? ==> videos == videosReply.value
      ensures !(reply.Some? && reply.value.isExpert && videosReply.Some?) ==> videos == old(videos)
      ensures editingService == old(editingService) && showAddService == old(showAddService)
      ensures serviceForm == old(serviceForm) && newVideoUrl == old(newVideoUrl)
    {
      if reply.None? {
        return;
      }
      profile := reply;
      form := FormOf(reply.value);
      if reply.value.isExpert {
        if servicesReply.Some? {
          services := servicesReply.value;
        }
        if videosReply.Some? {
          videos := videosReply.value;
        }
      }
    }

    /** `handleServiceTypeChange`: the chosen value, and the title that goes with it. */
    method ServiceTypeChange(value: string)
      modifies this
      ensures serviceForm == old(serviceForm).(serviceType := value, title := TitleFor(value))
      ensures services == old(services) && videos == old(videos) && editingService == old(editingService)
      ensures showAddService == old(showAddService) && profile == old(profile)
      ensures form == old(form) && newVideoUrl == old(newVideoUrl)
    {
      serviceForm := serviceForm.(serviceType := value, title := TitleFor(value));
    }

    /** `handleAddService`: with no profile nothing happens; a failed insert changes
        nothing; otherwise the new row goes in front of the list, the add panel closes
        and the form is emptied. */
    method AddService(newId: string, price: real, slots: int, insertFails: bool)
      returns (outcome: Outcome)
      modifies this
      ensures outcome == Skipped <==> old(profile).None?
      ensures outcome == WriteFailed <==> old(profile).Some? && insertFails
      ensures outcome != Done ==>
        services == old(services) && showAddService == old(showAddService) && serviceForm == old(serviceForm)
      ensures outcome == Done ==>
        && services == [NewService(newId, old(profile).value.id, old(serviceForm), price, slots)] + old(services)
        && !showAddService && serviceForm == EmptyServiceForm
      ensures videos == old(videos) && editingService == old(editingService) && profile == old(profile)
      ensures form == old(form) && newVideoUrl == old(newVideoUrl)
    {
      if profile.None? {
        return Skipped;
      }
      if insertFails {
        return WriteFailed;
      }
      services := [NewService(newId, profile.value.id, serviceForm, price, slots)] + services;
      showAddService := false;
      serviceForm := EmptyServiceForm;
      outcome := Done;
    }

    /** `handleUpdateService`: with nothing being edited nothing happens; a failed write
        changes nothing; otherwise the rows with the edited id take the form's values,
        editing ends and the form is emptied. The add panel is left as it was. */
    method UpdateService(price: real, slots: int, updateFails: bool) returns (outcome: Outcome)
      modifies this
      ensures outcome == Skipped <==> old(editingService).None?
      ensures outcome == WriteFailed <==> old(editingService).Some? && updateFails
      ensures outcome != Done ==>
        services == old(services) && editingService == old(editingService) && serviceForm == old(serviceForm)
      ensures outcome == Done ==>
        && services == ReplaceById(old(services), old(editingService).value.id, old(serviceForm), price, slots)
        && editingService == None && serviceForm == EmptyServiceForm
      ensures videos == old(videos) && showAddService == old(showAddService) && profile == old(profile)
      ensures form == old(form) && newVideoUrl == old(newVideoUrl)
    {
      if editingService.None? {
        return Skipped;
      }
      if updateFails {
        return WriteFailed;
      }
      services := ReplaceById(services, editingService.value.id, serviceForm, price, slots);
      editingService := None;
      serviceForm := EmptyServiceForm;
      outcome := Done;
    }

    /** `handleDeleteService`: after a successful delete the rows with that id are gone. */
    method DeleteService(id: string, deleteFails: bool)
      modifies this
      ensures deleteFails ==> services == old(services)
      ensures !deleteFails ==> services == WithoutService(old(services), id)
      ensures videos == old(videos) && editingService == old(editingService) && profile == old(profile)
      ensures showAddService == old(showAddService) && serviceForm == old(serviceForm)
      ensures form == old(form) && newVideoUrl == old(newVideoUrl)
    {
      if !deleteFails {
        services := WithoutService(services, id);
      }
    }

    /** `handleEditService`: the service becomes the one being edited and fills the form. */
    method EditService(s: Service, priceText: string, slotsText: string)
      modifies this
      ensures editingService == Some(s) && serviceForm == EditForm(s, priceText, slotsText)
      ensures services == old(services) && videos == old(videos) && profile == old(profile)
      ensures showAddService == old(showAddService) && form == old(form) && newVideoUrl == old(newVideoUrl)
    {
      editingService := Some(s);
      serviceForm := EditForm(s, priceText, slotsText);
    }

    /** `handleCancelEdit`: nothing being edited, the add panel closed, the form empty. */
    method CancelEdit()
      modifies this
      ensures editingService == None && !showAddService && serviceForm == EmptyServiceForm
      ensures services == old(services) && videos == old(videos) && profile == old(profile)
      ensures form == old(form) && newVideoUrl == old(newVideoUrl)
    {
      editingService := None;
      showAddService := false;
      serviceForm := EmptyServiceForm;
    }

    /** `handleAddVideo`: with no profile or a blank URL nothing happens; a failed insert
        changes nothing; otherwise the video with the trimmed URL goes in front of the
        list and the URL field is emptied. */
    method AddVideo(newId: string, insertFails: bool) returns (outcome: Outcome)
      modifies this
      ensures outcome == Skipped <==> old(profile).None? || AllWhitespace(old(newVideoUrl))
      ensures outcome == WriteFailed <==> outcome != Skipped && insertFails
      ensures outcome != Done ==> videos == old(videos) && newVideoUrl == old(newVideoUrl)
      ensures outcome == Done ==>
        && videos == [Video(newId, old(profile).value.id, Trim(old(newVideoUrl)))] + old(videos)
        && Trim(old(newVideoUrl)) != [] && newVideoUrl == ""
      ensures services == old(services) && editingService == old(editingService) && profile == old(profile)
      ensures showAddService == old(showAddService) && serviceForm == old(serviceForm) && form == old(form)
    {
      if profile.None? || Trim(newVideoUrl) == [] {
        return Skipped;
      }
      if insertFails {
        return WriteFailed;
      }
      videos := [Video(newId, profile.value.id, Trim(newVideoUrl))] + videos;
      newVideoUrl := "";
      outcome := Done;
    }

    /** `handleDeleteVideo`: after a successful delete the videos with that id are gone. */
    method DeleteVideo(id: string, deleteFails: bool)
      modifies this
      ensures deleteFails ==> videos == old(videos)
      ensures !deleteFails ==> videos == WithoutVideo(old(videos), id)
      ensures services == old(services) && editingService == old(editingService) && profile == old(profile)
      ensures showAddService == old(showAddService) && serviceForm == old(serviceForm)
      ensures form == old(form) && newVideoUrl == old(newVideoUrl)
    {
      if !deleteFails {
        videos := WithoutVideo(videos, id);
      }
    }
  }
}
