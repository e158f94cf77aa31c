/** The calendar's entities as the client holds them (src/types/index.ts). */
module CalendarTypes {
  import opened Options

  /** A JavaScript `Date`, kept only as an opaque instant. */
  type Instant = int

  datatype Activity = Activity(id: string, description: string)

  /** The weather snapshot taken when a city record is created; the model
      carries it along and never looks inside. */
  datatype Weather = Weather(temperature: int, condition: string, icon: string)

  datatype CityRecord = CityRecord(
    id: string,
    city: string,
    activities: seq<Activity>,
    weather: Option<Weather>)

  datatype DayData = DayData(date: Instant, cityRecords: seq<CityRecord>)

  /** `CalendarState.events`: date key (`yyyy-MM-dd`) to that day's data. */
  type Events = map<string, DayData>
}
