/**
 * The static service catalog (src/data/services.ts): four services with their
 * ids, display names, descriptions, durations, prices and matching keywords.
 */
module Catalog {
  import opened Base
  import opened Text

  datatype Service = Service(
    id: string,
    name: string,
    description: Description,
    durationMinutes: int,
    price: int,
    keywords: seq<string>)

  /**
   * The marketing copy of each service. A service refers to its copy by tag,
   * so that the long texts stay out of every proof about the catalog.
   */
  datatype Description = BridalGlamCopy | EventGlamCopy | SoftGlowCopy | LessonCopy

  function DescriptionText(d: Description): string
  {
    match d
    case BridalGlamCopy => "A luxe, camera-ready bridal application with complexion prep, airbrushed finish, and touch-up kit."
    case EventGlamCopy => "Full-face glam perfect for red carpet, photoshoots, and elevated nights out."
    case SoftGlowCopy => "Effortless complexion focus with luminous skin, soft eyes, and natural lashes."
    case LessonCopy => "A 90-minute one-on-one lesson covering techniques, product curation, and a personalized face chart."
  }

  /** The catalog, in its declared order. */
  const Services: seq<Service> := [
    Service(
      "bridal-glam",
      "Signature Bridal Glam",
      BridalGlamCopy,
      120, 320,
      ["bridal", "wedding", "bride"]),
    Service(
      "event-glam",
      "Event Glam",
      EventGlamCopy,
      90, 220,
      ["event", "glam", "party", "photoshoot"]),
    Service(
      "soft-glow",
      "Soft Glow Makeup",
      SoftGlowCopy,
      75, 180,
      ["soft", "natural", "glow", "daytime"]),
    Service(
      "lesson",
      "Personal Makeup Lesson",
      LessonCopy,
      90, 260,
      ["lesson", "class", "tutorial", "session"])
  ]

  /** Length of the business day, 09:00 to 18:00, in minutes. */
  const BusinessDayMinutes := 540

  /** The catalog's shape: four services, in this order, with these durations. */
  lemma CatalogShape()
    ensures |Services| == 4
    ensures Services[0].id == "bridal-glam" && Services[0].durationMinutes == 120
    ensures Services[1].id == "event-glam" && Services[1].durationMinutes == 90
    ensures Services[2].id == "soft-glow" && Services[2].durationMinutes == 75
    ensures Services[3].id == "lesson" && Services[3].durationMinutes == 90
  {
  }

  /** No two services share an id, so a lookup by id is unambiguous. */
  lemma IdsDistinct()
    ensures forall i, j :: 0 <= i < j < |Services| ==> Services[i].id != Services[j].id
  {
    assert Services[0].id[0] == 'b' && Services[1].id[0] == 'e';
    assert Services[2].id[0] == 's' && Services[3].id[0] == 'l';
  }

  /** Every duration is positive and fits inside the business day. */
  lemma DurationsFit()
    ensures forall i :: 0 <= i < |Services| ==>
      0 < Services[i].durationMinutes <= BusinessDayMinutes
  {
  }

  /** Every service has keywords, and each keyword is already lower case. */
  lemma KeywordsLowercase()
    ensures forall i :: 0 <= i < |Services| ==> |Services[i].keywords| > 0
    ensures forall i, k :: 0 <= i < |Services| && 0 <= k < |Services[i].keywords| ==>
      ToLower(Services[i].keywords[k]) == Services[i].keywords[k]
  {
    forall i, k | 0 <= i < |Services| && 0 <= k < |Services[i].keywords|
      ensures ToLower(Services[i].keywords[k]) == Services[i].keywords[k]
    {
      var w := Services[i].keywords[k];
      assert forall j :: 0 <= j < |w| ==> !IsUpperAscii(w[j]);
    }
  }

  /** `list.find(s => s.id === id)` over a sequence of services. */
  function FindById(list: seq<Service>, id: string): (r: Option<Service>)
    ensures r.Some? <==> exists i :: 0 <= i < |list| && list[i].id == id
    ensures r.Some? ==> exists i :: 0 <= i < |list| && list[i] == r.value
                                   && r.value.id == id
                                   && forall j :: 0 <= j < i ==> list[j].id != id
  {
    if |list| == 0 then None
    else if list[0].id == id then Some(list[0])
    else
      var r := FindById(list[1..], id);
      assert forall i :: 1 <= i < |list| ==> list[i] == list[1..][i - 1];
      r
  }

  /** `getService`: the catalog entry with the given id, if there is one. */
  function GetService(id: string): (r: Option<Service>)
    ensures r.Some? <==> exists i :: 0 <= i < |Services| && Services[i].id == id
    ensures r.Some? ==> r.value in Services && r.value.id == id
  {
    FindById(Services, id)
  }

  /** A catalog service is found by its own id, and the lookup returns that very service. */
  lemma GetServiceOwnId(i: nat)
    requires i < |Services|
    ensures GetService(Services[i].id) == Some(Services[i])
  {
    IdsDistinct();
  }

  /** Looking up a catalog service by its id gives that service back. */
  lemma GetServiceOfMember(s: Service)
    requires s in Services
    ensures GetService(s.id) == Some(s)
  {
    var i :| 0 <= i < |Services| && Services[i] == s;
    GetServiceOwnId(i);
  }

  /** Every service the lookup can return has a duration that fits the business day. */
  lemma GetServiceDuration(id: string)
    requires GetService(id).Some?
    ensures 0 < GetService(id).value.durationMinutes <= BusinessDayMinutes
  {
    DurationsFit();
  }
}
