/** The stored workout record (the Workout schema). */
module Workouts {

  /** An opaque user identifier (a MongoDB ObjectId). */
  type UserId = nat

  /** A calendar day in the server's local time, as a day number. */
  type Day = int

  /** One workout. `date` is filled by the store's default (the moment the
      record is inserted); `caloriesBurned` is derived from `duration` and
      `weight` when the record is parsed. */
  datatype WorkoutRecord = WorkoutRecord(
    user: UserId,
    category: string,
    workoutName: string,
    sets: int,
    reps: int,
    weight: real,
    duration: real,
    caloriesBurned: real,
    date: Day)
}
