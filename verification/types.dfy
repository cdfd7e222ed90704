/**
 The records shared by the GenoTasks board: a task as the application holds it,
 the flat record that travels through the replicated store, and the puts the
 application issues to that store.
 */
module Types {

  datatype Option<+T> = None | Some(value: T)

  /** Priorities, in increasing order of urgency. */
  datatype Priority = Baja | Media | Alta | Urgente

  /** `Bloqueada` is the status shown as "Bloqueada (falta Basecamp)". */
  datatype Status = Bloqueada | Activa | EnProgreso | Completada

  /** The two roles the header toggles between. */
  datatype Role = Leader | Head

  datatype Comment = Comment(author: string, text: string, timestamp: string)

  /** A task as materialised on this client. `area` and `responsible` range over
      enumerations that are not part of this model, so they are kept as text. */
  datatype Task = Task(
    id: string,
    title: string,
    week: string,
    area: string,
    responsible: string,
    requester: string,
    priority: Priority,
    status: Status,
    deliveryDate: Option<string>,
    comments: seq<Comment>)

  /** The same record as stored under its key in the replicated store: the
      comments travel as one encoded text blob, which may be missing. */
  datatype WireTask = WireTask(
    id: string,
    title: string,
    week: string,
    area: string,
    responsible: string,
    requester: string,
    priority: Priority,
    status: Status,
    deliveryDate: Option<string>,
    comments: Option<string>)

  /** One write to the task node: `None` is the null written by a delete. */
  datatype Put = Put(key: string, value: Option<WireTask>)
}
