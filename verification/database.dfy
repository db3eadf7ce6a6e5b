/**
 * The catalogue records the handlers read. Every optional column is an
 * `Option`; timestamps (`show_date`) are instants in milliseconds, the other
 * date columns stay opaque text. Profiles, follows and favourites are never
 * read by the handlers or the page and are not declared.
 */
module Database {
  import opened Wrappers

  /** An instant, in milliseconds since the epoch. */
  type Timestamp = int

  datatype Comedian = Comedian(
    id: string,
    name: string,
    bio: Option<string>,
    imageUrl: Option<string>,
    website: Option<string>,
    instagram: Option<string>,
    twitter: Option<string>,
    youtube: Option<string>,
    createdAt: string,
    updatedAt: string)

  datatype Venue = Venue(
    id: string,
    name: string,
    description: Option<string>,
    address: Option<string>,
    city: Option<string>,
    state: Option<string>,
    zipCode: Option<string>,
    country: string,
    phone: Option<string>,
    website: Option<string>,
    capacity: Option<int>,
    imageUrl: Option<string>,
    createdAt: string,
    updatedAt: string)

  datatype ShowStatus = Upcoming | SoldOut | Cancelled | Completed

  /** A show; prices are whole numbers. */
  datatype Show = Show(
    id: string,
    title: string,
    description: Option<string>,
    venueId: string,
    showDate: Timestamp,
    doorsOpen: Option<string>,
    showTime: Option<string>,
    ticketPriceMin: Option<int>,
    ticketPriceMax: Option<int>,
    ticketUrl: Option<string>,
    ageRestriction: Option<string>,
    status: ShowStatus,
    imageUrl: Option<string>,
    createdAt: string,
    updatedAt: string)

  datatype PerformerRole = Headliner | Opener | Feature | Host | Performer

  datatype ShowPerformer = ShowPerformer(
    id: string,
    showId: string,
    comedianId: string,
    role: PerformerRole,
    orderIndex: int,
    createdAt: string)

  /**
   * One joined performer row: the bridge row and its comedian, which the join
   * leaves out (`null`) when the comedian row is missing.
   */
  datatype PerformerWithComedian = PerformerWithComedian(performer: ShowPerformer, comedian: Option<Comedian>)

  /** A show with its joined venue and performers, both optional. */
  datatype ShowWithDetails = ShowWithDetails(
    show: Show,
    venue: Option<Venue>,
    performers: Option<seq<PerformerWithComedian>>)
}
