/**
 * The barber's service catalogue editor: a validated form creates or edits a
 * service, and services are switched on and off or deleted, each change
 * applied to the list only when the store accepts it.
 */
module ServiceManager {
  import opened Wrappers
  import opened Ledger
  import Rows
  import Checkout

  /** The add/edit dialog's fields; the price is in cents. */
  datatype ServiceForm = ServiceForm(name: string, description: Option<string>, price: int, durationMinutes: int)

  /** One dollar, the lowest price the form accepts. */
  const MinPrice := 100
  const MinDurationMinutes := 15

  /** The form's schema: a name, a price of at least one dollar, a length of at least 15 minutes. */
  function ServiceSchema(form: ServiceForm): (valid: bool)
    ensures valid ==> form.name != [] && form.price > 0 && form.durationMinutes > 0
    ensures form.price < MinPrice || form.durationMinutes < MinDurationMinutes ==> !valid
  {
    |form.name| >= 1 && form.price >= MinPrice && form.durationMinutes >= MinDurationMinutes
  }

  /** The add dialog's starting values, which the schema turns away until a name and a price are entered. */
  function DefaultForm(): (form: ServiceForm)
    ensures !ServiceSchema(form)
    ensures form.price < MinPrice && form.durationMinutes >= MinDurationMinutes
  {
    ServiceForm("", Some(""), 0, 30)
  }

  /** The edit dialog's starting values: the service's own, with a missing description shown empty. */
  function EditForm(service: Service): (form: ServiceForm)
    ensures form.description == Some(service.description.GetOr(""))
    ensures form.name == service.name && form.price == service.price && form.durationMinutes == service.durationMinutes
  {
    ServiceForm(service.name, Some(service.description.GetOr("")), service.price, service.durationMinutes)
  }

  function ServiceId(service: Service): int { service.id }

  /** The row the store gives back for an edited service: the form's fields over the service's own. */
  function Edited(service: Service, form: ServiceForm): (updated: Service)
    ensures updated.id == service.id && updated.barberId == service.barberId && updated.isActive == service.isActive
    ensures updated.name == form.name && updated.price == form.price && updated.durationMinutes == form.durationMinutes
    ensures updated.description == form.description
  {
    service.(name := form.name, description := form.description, price := form.price,
             durationMinutes := form.durationMinutes)
  }

  /** The row the store gives back for a new service: the barber's, active, under the id the store chose. */
  function Created(id: int, barberId: int, form: ServiceForm): (service: Service)
    ensures service.id == id && service.barberId == barberId && service.isActive
    ensures service.name == form.name && service.price == form.price && service.durationMinutes == form.durationMinutes
    ensures service.description == form.description
  {
    Service(id, barberId, form.name, form.description, form.price, form.durationMinutes, true)
  }

  /**
   * A service saved through the schema can be booked: it has a positive
   * length for the slot generator and a non-zero price for checkout's field
   * check.
   */
  lemma SchemaServicesBookable(id: int, barberId: int, form: ServiceForm, req: Checkout.Request)
    requires ServiceSchema(form)
    requires req.barberId.Some? && req.serviceId.Some? && req.appointmentDate.Some? && req.appointmentTime != ""
    requires req.totalPrice == Created(id, barberId, form).price
    ensures Created(id, barberId, form).durationMinutes > 0
    ensures Checkout.HasRequiredFields(req)
  {
  }

  /**
   * Editing a service with a unique id writes its entry and no other: same
   * length, same order, every other entry as it was.
   */
  lemma EditReplacesOnlyThatEntry(services: seq<Service>, k: int, form: ServiceForm)
    requires Rows.UniqueKeys(services, ServiceId) && 0 <= k < |services|
    ensures Rows.ReplaceById(services, ServiceId, services[k].id, Edited(services[k], form)) ==
      services[k := Edited(services[k], form)]
  {
    Rows.ReplaceOne(services, ServiceId, k, Edited(services[k], form));
  }

  /** Switching a listed service off and on again gives back the list it started from. */
  lemma ToggleActiveTwice(services: seq<Service>, k: int)
    requires Rows.UniqueKeys(services, ServiceId) && 0 <= k < |services|
    ensures var s := services[k];
      var flipped := s.(isActive := !s.isActive);
      var once := Rows.ReplaceById(services, ServiceId, s.id, flipped);
      Rows.ReplaceById(once, ServiceId, flipped.id, flipped.(isActive := !flipped.isActive)) == services
  {
    var s := services[k];
    var flipped := s.(isActive := !s.isActive);
    Rows.ReplaceOne(services, ServiceId, k, flipped);
    var once := services[k := flipped];
    Rows.ReplaceKeepsUnique(services, ServiceId, s.id, flipped);
    Rows.ReplaceOne(once, ServiceId, k, s);
    assert once[k := s] == services;
  }

  /**
   * Deleting a service removes exactly the entries with its id and keeps the
   * rest in order: deleting from a list split in two is deleting from each
   * part, and an id no entry carries changes nothing.
   */
  lemma DeleteKeepsOrder(front: seq<Service>, back: seq<Service>, id: int)
    requires forall i :: 0 <= i < |front| ==> front[i].id != id
    ensures Rows.RemoveById(front + back, ServiceId, id) == front + Rows.RemoveById(back, ServiceId, id)
  {
    Rows.RemoveByIdAppend(front, back, ServiceId, id);
    Rows.RemoveAbsent(front, ServiceId, id);
  }

  /** The editor's state: the barber, the listed services and the service the dialog is editing, if any. */
  class ServiceManager {
    const barberId: int
    var services: seq<Service>
    var editing: Option<Service>

    /** Listed services have distinct ids. */
    ghost predicate Valid()
      reads this
    {
      Rows.UniqueKeys(services, ServiceId)
    }

    constructor (barberId: int, initialServices: seq<Service>)
      ensures this.barberId == barberId && services == initialServices && editing.None?
      ensures Rows.UniqueKeys(initialServices, ServiceId) ==> Valid()
    {
      this.barberId := barberId;
      services := initialServices;
      editing := None;
    }

    /** Opening the add dialog: nothing is being edited and the form starts from the defaults. */
    method OpenAddDialog() returns (form: ServiceForm)
      modifies this
      ensures editing.None? && form == DefaultForm() && services == old(services)
    {
      editing := None;
      form := DefaultForm();
    }

    /** Opening the edit dialog for a service: the form starts from its values. */
    method OpenEditDialog(service: Service) returns (form: ServiceForm)
      modifies this
      ensures editing == Some(service) && form == EditForm(service) && services == old(services)
    {
      editing := Some(service);
      form := EditForm(service);
    }

    /**
     * Submitting the dialog. A form the schema rejects is never sent; a
     * refused write changes nothing. Otherwise an edit replaces the edited
     * service's entries and an addition appends the new service.
     */
    method Submit(form: ServiceForm, storeOk: bool, newId: int)
      modifies this
      ensures editing == old(editing)
      ensures !ServiceSchema(form) || !storeOk ==> services == old(services)
      ensures ServiceSchema(form) && storeOk && editing.Some? ==>
        services == Rows.ReplaceById(old(services), ServiceId, editing.value.id, Edited(editing.value, form))
      ensures ServiceSchema(form) && storeOk && editing.None? ==>
        services == old(services) + [Created(newId, barberId, form)]
      ensures old(Valid()) && (forall i :: 0 <= i < |old(services)| ==> old(services)[i].id != newId) ==> Valid()
    {
      if !ServiceSchema(form) || !storeOk {
        return;
      }
      if editing.Some? {
        var updated := Edited(editing.value, form);
        if Valid() {
          Rows.ReplaceKeepsUnique(services, ServiceId, editing.value.id, updated);
        }
        services := Rows.ReplaceById(services, ServiceId, editing.value.id, updated);
      } else {
        var created := Created(newId, barberId, form);
        if Valid() && forall i :: 0 <= i < |services| ==> services[i].id != newId {
          Rows.AppendFreshKeepsUnique(services, ServiceId, created);
        }
        services := services + [created];
      }
    }

    /** Switching a service on or off flips its flag in its entries; a refused write changes nothing. */
    method ToggleActive(service: Service, storeOk: bool)
      modifies this
      ensures editing == old(editing)
      ensures services == if storeOk
        then Rows.ReplaceById(old(services), ServiceId, service.id, service.(isActive := !service.isActive))
        else old(services)
      ensures old(Valid()) ==> Valid()
    {
      if storeOk {
        var updated := service.(isActive := !service.isActive);
        if Valid() {
          Rows.ReplaceKeepsUnique(services, ServiceId, service.id, updated);
        }
        services := Rows.ReplaceById(services, ServiceId, service.id, updated);
      }
    }

    /** Deleting a service drops its entries; a refused delete changes nothing. */
    method DeleteService(serviceId: int, storeOk: bool)
      modifies this
      ensures editing == old(editing)
      ensures services == if storeOk then Rows.RemoveById(old(services), ServiceId, serviceId) else old(services)
      ensures old(Valid()) ==> Valid()
    {
      if storeOk {
        if Valid() {
          Rows.RemoveKeepsUnique(services, ServiceId, serviceId);
        }
        services := Rows.RemoveById(services, ServiceId, serviceId);
      }
    }
  }
}
