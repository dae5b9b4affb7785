# Weather Dashboard backend: city store, insight template and login decision

This project models the backend logic of the Weather Dashboard server
(`server/server.js` and the City schema in `server/models/City.js`) in Dafny.

- **City collection.** Each user keeps a list of cities. A City document has an
  id, an owner (`userId`), a name (`cityName`) and a favourite flag
  (`isFavorite`, default false). Four authenticated routes work on the
  collection, always scoped to the caller:
  - `POST /cities` trims and lower-cases the name, refuses a name the caller
    already has (400 "City already exists"), and otherwise creates the document.
  - `GET /cities` returns the caller's documents.
  - `PATCH /cities/:id/favorite` finds the document by id and owner, flips its
    flag and saves it, or answers 404 "City not found".
  - `DELETE /cities/:id` removes the document matching id and owner, or answers
    404 "City not found".
- **How the collection is modelled.** It is written twice. Module `CityService`
  defines each route as a transition of a collection value (`Db`). Class
  `CityStore.Store` holds the table as mutable fields, and its methods follow the
  handlers statement by statement. Each method is proved to perform the
  transition of `CityService`. Module `CityProperties` proves what the routes
  promise when combined:
  - the collection invariant holds (ids unique, names non-empty and in normal form, one name per owner);
  - no handler changes a stored owner or name;
  - owners are isolated from each other;
  - toggling twice is the identity;
  - deleting twice answers 404.
- **Insight template.** `GET /ai-insight/:city` picks one of three fixed sentences
  by strict temperature thresholds (above 30 °C warm, below 15 °C cool, otherwise
  balanced). It appends a rain sentence when the weather description contains
  "rain". Module `Insight` models this, taking the provider's temperature and
  description as inputs.
- **Login decision.** Module `Session` models the branches of `POST /login`:
  - unknown email: 400 "User not found";
  - absent password: 500, because the hash comparison throws;
  - wrong password: 400 "Invalid password";
  - otherwise a one-day token for the first user with that email.

  The bcrypt comparison is a parameter of the model.

Support modules:
- `Text`: JavaScript `trim`, `toLowerCase` and `includes` on strings.
- `Query`: the store's `findOne` and `find` over a collection in natural order.
- `Http`: the status/body pairs the handlers send.
- `Wrappers`: `Option`.

Some inputs can be absent or malformed, and the handlers' `catch` blocks turn
these into 500 responses. They are modelled as `Option` values:
- a missing or non-string `cityName` makes `trim` throw;
- a name that is blank after trimming fails the schema's `required` check;
- an `:id` that is not a valid ObjectId fails the cast;
- a missing password makes the bcrypt comparison throw.

## Model

| member | source | states |
|---|---|---|
| `Text.LeadingSpaces` | server/server.js:99 | the count of leading characters `trim` drops: all of them are white space and the next character, if any, is not |
| `Text.TrailingSpaces` | server/server.js:99 | the count of trailing characters `trim` drops: all of them are white space and the character before them, if any, is not |
| `Text.Trim` | server/server.js:99 | `trim` returns the slice of the input that starts after its leading white space; everything before and after that slice is white space; the result has no white space at either end and is "" exactly for an all-white-space input |
| `Text.TrimOfTrimmed` | server/server.js:99 | `trim` changes nothing on a string without white space at its ends |
| `Text.ToLower` | server/server.js:99 | `toLowerCase` keeps the length, leaves no upper-case letter, maps each upper-case letter to its lower-case form and keeps every other character |
| `Text.Normalize` | server/server.js:99 | the stored form of a name is, character by character, the lower-cased part of the input after its leading white space; only white space lies before and after that part; the result is in normal form (trimmed, no upper-case letter) and is empty exactly when the input is all white space |
| `Text.NormalFixedPoints` | server/server.js:99 | `trim().toLowerCase()` leaves a name unchanged exactly when the name is in normal form |
| `Text.NormalizeIdempotent` | server/server.js:99 | normalizing a normalized name again gives the same name |
| `Text.Contains` | server/server.js:214 | `includes(sub)` holds exactly when `sub` occurs at some position |
| `Query.FindFirst` | server/server.js:101-104 | `findOne` answers None exactly when no document matches; otherwise it answers the first matching position |
| `Query.FindAll` | server/server.js:123 | `find` returns exactly the matching documents and no more documents than there are |
| `Query.FindAllCounts` | server/server.js:123 | `find` keeps each matching document as many times as the collection holds it, and drops every other |
| `CityModel.Create` | server/models/City.js:3-17 | creation succeeds exactly when `userId` is present and `cityName` is present and non-empty; it keeps the given fields, and `isFavorite` is false unless set to true |
| `CityService.AddCity` | server/server.js:96-119 | a missing name gives 500; a normalized name the caller already has gives 400 "City already exists" and leaves the collection unchanged; otherwise a non-favourite city with the normalized name, owned by the caller, is appended and returned |
| `CityService.ListCities` | server/server.js:121-128 | a document is in the result exactly when it is in the collection and belongs to the caller |
| `CityService.ToggleFavorite` | server/server.js:130-148 | a malformed id gives 500; an id the caller does not own gives 404 and changes nothing; otherwise only that document's flag is flipped, and the updated document is returned |
| `CityService.DeleteCity` | server/server.js:150-165 | a malformed id gives 500; an id the caller does not own gives 404 and changes nothing; otherwise exactly that document is removed and the success message is returned |
| `CityProperties.AddCityKeepsValid` | server/server.js:99-113 | adding keeps ids unique, names non-empty and in normal form, and (owner, name) pairs unique, and changes no stored document |
| `CityProperties.ToggleFavoriteKeepsValid` | server/server.js:132-142 | toggling keeps the collection valid and never changes an owner or a name |
| `CityProperties.DeleteCityKeepsValid` | server/server.js:152-155 | deleting keeps the collection valid and the remaining documents unchanged |
| `CityProperties.AddCityRejectsDuplicate` | server/server.js:99-108 | after a successful add, any spelling that normalizes to the same name gives 400 from the same owner and leaves the collection unchanged |
| `CityProperties.AddCityScopedByOwner` | server/server.js:101-104 | whether an add by one owner succeeds does not depend on another owner's earlier add |
| `CityProperties.TwoOwnersSameCity` | server/server.js:101-113 | two owners who do not hold a name yet can each add it in turn; each gets their own document with the next id |
| `CityProperties.PaddedNameStoredNormalized` | server/server.js:98-113 | " Paris " is stored as "paris", owned by the caller and not a favourite |
| `CityProperties.ListAfterAdd` | server/server.js:110-124 | after an add, each owner's list is the old list, and the adding owner's list is extended by the new document |
| `CityProperties.ListAfterToggle` | server/server.js:132-142 | a toggle by one owner leaves every other owner's list unchanged |
| `CityProperties.ListAfterDelete` | server/server.js:152-155 | a delete by one owner leaves every other owner's list unchanged |
| `CityProperties.ToggleTwice` | server/server.js:132-144 | toggling twice restores the collection; the second toggle succeeds exactly when the first did, with the opposite flag |
| `CityProperties.StatusCodes` | server/server.js:96-165 | the status of each city route: adding answers 400 exactly for a name the caller has, 500 exactly for a missing name or a blank one the caller does not have, otherwise 200; toggling and deleting answer 404 exactly for a well-formed id the caller does not own, 500 exactly for a malformed id, otherwise 200 |
| `CityProperties.ForeignCityNotFound` | server/server.js:132-138 | an id held by another owner gives 404 to both toggle and delete and leaves the collection unchanged |
| `CityProperties.DeleteTwice` | server/server.js:152-159 | after a successful delete no owner holds the id, so a second delete or a toggle of it gives 404 and changes nothing |
| `CityStore.Store.constructor` | server/models/City.js:19 | a new store has an empty, valid collection |
| `CityStore.Store.AddCity` | server/server.js:96-119 | the table update and response are those of `CityService.AddCity`; validity is kept and stored owners and names are unchanged |
| `CityStore.Store.ListCities` | server/server.js:121-128 | returns exactly the caller's documents in natural order, changing nothing |
| `CityStore.Store.ToggleFavorite` | server/server.js:130-148 | the in-place flag flip and response are those of `CityService.ToggleFavorite`; validity is kept and stored owners and names are unchanged |
| `CityStore.Store.DeleteCity` | server/server.js:150-165 | the removal and response are those of `CityService.DeleteCity`; validity is kept and the remaining documents are unchanged |
| `Insight.MoodOf` | server/server.js:206-212 | warm exactly above 30, cool exactly below 15, balanced from 15 to 30 inclusive |
| `Insight.OpeningNotRainy` | server/server.js:207-211 | none of the three sentences ends with the rain sentence |
| `Insight.InsightText` | server/server.js:204-216 | the text begins with the sentence of the temperature's mood; it ends with the rain sentence exactly when the description contains "rain"; its length leaves room for nothing else |
| `Insight.AiInsight` | server/server.js:191-223 | a provider failure gives 500 "AI insight failed"; otherwise 200 whose body is exactly the insight text for the reading's temperature and description |
| `Insight.ThresholdsStrict` | server/server.js:206-212 | 30 and 15 degrees both give the balanced sentence, the same text; above 30 gives warm and below 15 gives cool |
| `Insight.InsightRecoversMoodAndRain` | server/server.js:204-216 | two equal insight texts come from the same mood and the same rain answer, whatever the cities |
| `Insight.MoodMonotonic` | server/server.js:206-212 | a higher temperature never gives a cooler sentence |
| `Insight.CoolRainyParis` | server/server.js:208-216 | 10 degrees with "light rain" gives the cool sentence for paris followed by the rain sentence |
| `Insight.CoolDryParis` | server/server.js:208-216 | 10 degrees with "clear sky" gives the cool sentence alone |
| `Session.Login` | server/server.js:65-92 | no user with the email gives 400 "User not found"; a missing password gives 500; a mismatch with the first such user's hash gives 400 "Invalid password"; otherwise a one-day token carrying that user's id |
| `Session.WrongPasswordNoToken` | server/server.js:75-79 | a password that does not match the stored hash never yields a token |
| `Session.RegisteredUserLogsIn` | server/server.js:69-87 | a user stored under a new email, whose hash matches the password, logs in and gets a token for their own id |

## Left out

- `POST /register` (server/server.js:45-61): user creation goes through the User model, which is not part of this model, and through bcrypt hashing. Login takes the user collection as given.
- The auth middleware (`./middleware/auth`) is not part of this model. The caller's user id is a parameter of every city operation, and token verification is not modelled.
- `GET /weather/:city` and the provider call in `/ai-insight/:city` (server/server.js:169-202) are network calls to OpenWeatherMap. The insight takes the temperature and the description as inputs. A provider failure is the `None` reading.
- Express setup, CORS, body parsing, the unused OpenAI client, the database connection and `app.listen` are framework plumbing.
- The `catch` blocks also turn infrastructure failures (lost database connection and similar) into 500 responses. Only the failures that the request data itself triggers are modelled.
- Concurrency: a concurrent add can slip between the duplicate check and the insert, which this model does not capture. Last-write-wins toggles are not captured either. The model runs one request at a time.
- The schema's `timestamps` (createdAt, updatedAt) and Mongoose's `__v` are not modelled.
- Document ids are naturals handed out by a counter instead of ObjectIds. A malformed `:id` is the absent value.
- `Text.ToLower`: covers the ASCII letters only, weaker than `toLowerCase`, which also maps non-ASCII upper-case letters (some to several characters). Case folding of Unicode needs tables the model does not carry.
- `Insight.MoodOf`: temperature is a real number. A NaN or missing temperature fails both comparisons, so the source picks the balanced sentence; the model has no such value.
- `Session.Login`: the email is always a string. The model does not cover a request without an email, whose filter the driver would treat differently. The bcrypt comparison is a parameter. The JWT signature, its secret and its encoding are not modelled.
- `CityStore.Store.ToggleFavorite`: the source mutates the fetched document object and saves it. The model replaces the element of the table. The document is not shared with any other holder, so no aliasing is lost.
- The client pages (`client/src/app/...`) are React UI and are not modelled.
