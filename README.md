# Trip management system — a Dafny model of its core

The system sells seats on tourist trips. An agency's agents book
reservations and its owner manages users and trips. Two desktop windows talk
to a TCP server with `#`-separated request lines. A REST controller and a
WebSocket relay serve the web front end. All of them work over four stores:
trips, users, customers and reservations.

This project models, module by module:

- **JavaLang** (`java_lang.dfy`): the Java behaviour the core relies on.
  - `int` wrap-around.
  - `Integer.parseInt` and `Integer.toString`.
  - `String.split` on one character, which drops trailing empty strings.
  - `String.join` and `String.trim`.
  - Substring containment.
- **Domain** (`domain.dfy`): trips, users, customers and reservations, and the exceptions the handlers catch.
- **Repository** (`memory_repository.dfy`): the in-memory store as a class over a map.
  - `save`, `update`, `delete`, `findById` and `findAll`.
  - Iteration is modelled in ascending id order.
- **UserServices, TripServices, CustomerServices, ReservationServices**:
  - the null checks and "not found" checks of the services;
  - the username-uniqueness rule of `UserService.save` and `update`;
  - the copying loops of `findAll`.
- **Wire** (`wire.dfy`):
  - the `,`-separated trip and user records and their parsers;
  - the `;`-terminated record lists;
  - the `max + 1` id generator.
- **Commands** (`commands.dfy`): one request line as a function of the stores. It gives the new stores, the reply line and an optional broadcast, or the unchecked exception that ends the connection.
- **Networking** (`networking.dfy`):
  - the `Server` registry of handlers and what each connection has been sent;
  - the `ClientHandler` methods, each proved against **Commands**;
  - the `run` loop.
- **ReservationApi** (`reservation_controller.dfy`): the REST create, list and cancel endpoints. Their ids come from a clock.
- **WebSocket** (`websocket.dfy`): the relay of each incoming message to every other open session.
- **ClientRecords, OwnerRights, UserInterface**: the desktop windows.
  - Their form validation and the request lines they build.
  - How they parse the server's lists back.
  - How they react to replies.
  - Lemmas that follow each request line into the server's dispatch.

Main results:

- **Round trips.** Every record the server writes reads back as the same user or trip. This holds in the server's parser and in the windows' parsers, and the same goes for whole lists.
- **Invariants.** Every command keeps every record under its own id and keeps usernames unique. This holds per command and over a whole session.
- **Seats.**
  - A booking takes exactly the requested seats and never goes below zero.
  - A REST cancel gives the seats back, and undoes a create even across wrap-around.
- **End-to-end requests.** The windows' requests reach the intended server operation: add, update with or without a changed id, delete, search and reserve.

The model also proves some things about the code as written:

- Over TCP, every new reservation gets id 1. The id scan reads `findByTripId(null)`, which returns nothing.
- The owner window's user search asks for a command the server does not know.
- The owner window shows a failure reply as a success when the reason text contains `SUCCESS`.
- An update whose id changed deletes the old id first, and that deletion stays even when the update is refused.

## Model

| member | source | states |
|---|---|---|
| JavaLang.Wrap32 | Project_backend/src/main/java/com/darius/project/networking/ClientHandler.java:133-134 | Java `int` arithmetic: the exact value when it fits in 32 bits, else the value congruent to it modulo 2^32 |
| JavaLang.Wrap32SubAdd | Project_backend/src/main/java/com/darius/project/api/ReservationController.java:81-85 | taking seats and giving the same number back restores the count even when the subtraction wrapped around |
| JavaLang.ParseInt | Project_backend/src/main/java/com/darius/project/networking/ClientHandler.java:114-115 | a parsed number comes from a non-empty text of decimal digits with at most a leading sign |
| JavaLang.IntToString | Project_backend/src/main/java/com/darius/project/networking/ClientHandler.java:108-110 | the decimal text of an int parses back to that int, and holds only digits and '-' |
| JavaLang.Split | Project_backend/src/main/java/com/darius/project/networking/ClientHandler.java:41 | a text without the delimiter is one field; no field holds the delimiter |
| JavaLang.SplitOfJoin | Project_backend/src/main/java/com/darius/project/networking/ClientHandler.java:149-150 | splitting fields joined by a delimiter gives the fields back, when none holds it and the last is not empty |
| JavaLang.SplitOfTerminated | Project_backend/src/main/java/com/darius/project/gui/OwnerRightsController.java:152 | splitting a ';'-terminated list gives the records back, when none holds ';' and the last is not empty |
| JavaLang.Trim | Project_backend/src/main/java/com/darius/project/gui/UserInterfaceController.java:155-157 | trimming gives the empty text exactly for a blank text, and otherwise starts and ends with a non-space character |
| Domain.ElementAt | Project_backend/src/main/java/com/darius/project/networking/ClientHandler.java:241-247 | array access gives the element exactly when the index is in range, else ArrayIndexOutOfBoundsException with the index and length |
| Repository.HasMinimum | Project_backend/src/main/java/com/darius/project/repository/MemoryRepository.java:23 | every non-empty set of ids has a least element, so the store can be enumerated in id order |
| Repository.AscendingIsStrict | Project_backend/src/main/java/com/darius/project/repository/MemoryRepository.java:23 | the enumeration is strictly increasing, so every id appears exactly once |
| Repository.ValuesOf | Project_backend/src/main/java/com/darius/project/repository/MemoryRepository.java:23 | the iterator yields one value per stored id, namely the value stored under it |
| Repository.ValuesOfMembers | Project_backend/src/main/java/com/darius/project/repository/MemoryRepository.java:23 | every stored value is yielded, and nothing else |
| Repository.Filter | Project_backend/src/main/java/com/darius/project/service/TripService.java:13-28 | a query result holds exactly the matching elements of the enumeration |
| Repository.MemoryRepository.constructor | Project_backend/src/main/java/com/darius/project/repository/MemoryRepository.java:8 | a new store is empty |
| Repository.MemoryRepository.FindById | Project_backend/src/main/java/com/darius/project/repository/MemoryRepository.java:20 | the entity stored under the id, or null exactly when there is none |
| Repository.MemoryRepository.FindAll | Project_backend/src/main/java/com/darius/project/repository/MemoryRepository.java:23 | the values, one per id in ascending id order: every stored value included, as often as it is stored, and nothing else |
| Repository.MemoryRepository.Save | Project_backend/src/main/java/com/darius/project/repository/MemoryRepository.java:11 | the id now maps to the entity and no other id changes |
| Repository.MemoryRepository.Delete | Project_backend/src/main/java/com/darius/project/repository/MemoryRepository.java:14 | the id is gone, no other id changes, and deleting an absent id changes nothing |
| Repository.MemoryRepository.Update | Project_backend/src/main/java/com/darius/project/repository/MemoryRepository.java:17 | the same as save: the id maps to the entity, inserted if absent, and no other id changes |
| UserServices.UserNamed | Project_backend/src/main/java/com/darius/project/service/UserService.java:16-25 | null exactly when no stored user has the name; otherwise a stored user with that name |
| UserServices.LoginValid | Project_backend/src/main/java/com/darius/project/service/UserService.java:27-44 | an unknown username never logs in; a login that succeeds names a stored account with that password |
| UserServices.LoginValidExact | Project_backend/src/main/java/com/darius/project/service/UserService.java:27-44 | with unique usernames, login succeeds exactly when some account has that name and that password |
| UserServices.Saved | Project_backend/src/main/java/com/darius/project/service/UserService.java:58-81 | a null user is refused with its message; a save that succeeds stores the user under the id |
| UserServices.Updated | Project_backend/src/main/java/com/darius/project/service/UserService.java:83-116 | null and unknown ids are refused with their messages; keeping the name always succeeds; success stores the user |
| UserServices.SavedRefusesTakenUsername | Project_backend/src/main/java/com/darius/project/service/UserService.java:67-72 | in a consistent store, save is refused exactly when another id already holds the username |
| UserServices.SavedKeepsConsistent | Project_backend/src/main/java/com/darius/project/service/UserService.java:58-81 | a successful save under the user's own id keeps ids matching and usernames unique |
| UserServices.UpdatedRefusesTakenUsername | Project_backend/src/main/java/com/darius/project/service/UserService.java:98-104 | a renaming update is refused exactly when another id holds the new name |
| UserServices.UpdatedKeepsConsistent | Project_backend/src/main/java/com/darius/project/service/UserService.java:83-116 | a successful update under the user's own id keeps ids matching and usernames unique |
| UserServices.DeletedKeepsConsistent | Project_backend/src/main/java/com/darius/project/service/UserService.java:118-135 | removing an id keeps the store consistent |
| UserServices.UserService.constructor | Project_backend/src/main/java/com/darius/project/service/UserService.java:14 | the service works on the given repository |
| UserServices.UserService.FindByUsername | Project_backend/src/main/java/com/darius/project/service/UserService.java:16-25 | the first user with the name, as the lookup defines it |
| UserServices.UserService.CheckLogin | Project_backend/src/main/java/com/darius/project/service/UserService.java:27-44 | the login decision over the current store |
| UserServices.UserService.FindById | Project_backend/src/main/java/com/darius/project/service/UserService.java:46-56 | the stored user or null |
| UserServices.UserService.Save | Project_backend/src/main/java/com/darius/project/service/UserService.java:58-81 | the store becomes the saved store on success and is unchanged on refusal, with the refusal message |
| UserServices.UserService.Update | Project_backend/src/main/java/com/darius/project/service/UserService.java:83-116 | the store becomes the updated store on success and is unchanged on refusal, with the message |
| UserServices.UserService.Delete | Project_backend/src/main/java/com/darius/project/service/UserService.java:118-135 | the id is removed whether or not it was present |
| UserServices.UserService.FindAll | Project_backend/src/main/java/com/darius/project/service/UserService.java:137-150 | the copying loop yields the store's enumeration, in order |
| TripServices.TripsByAttractionAndTime | Project_backend/src/main/java/com/darius/project/service/TripService.java:13-19 | a trip is listed exactly when it is stored, its attraction contains the text and it departs in the range |
| TripServices.TripsByAttraction | Project_backend/src/main/java/com/darius/project/service/TripService.java:22-28 | a trip is listed exactly when it is stored and its attraction contains the text |
| TripServices.Saved | Project_backend/src/main/java/com/darius/project/service/TripService.java:60-75 | refused exactly for a null trip, with its message; otherwise the trip is stored under the id |
| TripServices.Updated | Project_backend/src/main/java/com/darius/project/service/TripService.java:77-100 | succeeds exactly for a non-null trip whose id is stored; the failures carry their messages |
| TripServices.TripService.constructor | Project_backend/src/main/java/com/darius/project/service/TripService.java:11 | the service works on the given repository |
| TripServices.TripService.FindByAttractionAndTime | Project_backend/src/main/java/com/darius/project/service/TripService.java:13-19 | the query's trips |
| TripServices.TripService.FindAllByAttractionContaining | Project_backend/src/main/java/com/darius/project/service/TripService.java:22-28 | the query's trips |
| TripServices.TripService.FindById | Project_backend/src/main/java/com/darius/project/service/TripService.java:31-42 | the stored trip or null |
| TripServices.TripService.FindAll | Project_backend/src/main/java/com/darius/project/service/TripService.java:44-58 | the copying loop yields the store's enumeration, in order |
| TripServices.TripService.Save | Project_backend/src/main/java/com/darius/project/service/TripService.java:60-75 | the store becomes the saved store, or is unchanged with the refusal message |
| TripServices.TripService.Update | Project_backend/src/main/java/com/darius/project/service/TripService.java:77-100 | the store becomes the updated store, or is unchanged with the refusal message |
| TripServices.TripService.Delete | Project_backend/src/main/java/com/darius/project/service/TripService.java:102-117 | the id is removed whether or not it was present |
| CustomerServices.CustomerNamed | Project_backend/src/main/java/com/darius/project/service/CustomerService.java:18-28 | null exactly when no stored customer has the name; otherwise a stored customer with it |
| CustomerServices.Saved | Project_backend/src/main/java/com/darius/project/service/CustomerService.java:51-65 | refused exactly for a null customer; otherwise stored under its own id |
| CustomerServices.Updated | Project_backend/src/main/java/com/darius/project/service/CustomerService.java:67-87 | succeeds exactly for a non-null customer whose id is stored |
| CustomerServices.Deleted | Project_backend/src/main/java/com/darius/project/service/CustomerService.java:89-103 | refused exactly for a null customer; otherwise its id is removed |
| CustomerServices.CustomerService.constructor | Project_backend/src/main/java/com/darius/project/service/CustomerService.java:16 | the service works on the given repository |
| CustomerServices.CustomerService.FindByCustomerName | Project_backend/src/main/java/com/darius/project/service/CustomerService.java:18-28 | the first customer with the name |
| CustomerServices.CustomerService.FindById | Project_backend/src/main/java/com/darius/project/service/CustomerService.java:30-40 | the stored customer or null |
| CustomerServices.CustomerService.FindAll | Project_backend/src/main/java/com/darius/project/service/CustomerService.java:42-49 | the iterator's elements collected in order |
| CustomerServices.CustomerService.Save | Project_backend/src/main/java/com/darius/project/service/CustomerService.java:51-65 | the store becomes the saved store, or is unchanged with the refusal message |
| CustomerServices.CustomerService.Update | Project_backend/src/main/java/com/darius/project/service/CustomerService.java:67-87 | the store becomes the updated store, or is unchanged with the refusal message |
| CustomerServices.CustomerService.Delete | Project_backend/src/main/java/com/darius/project/service/CustomerService.java:89-103 | the store loses the customer's id, or is unchanged with the refusal message |
| ReservationServices.ReservationsOfTrip | Project_backend/src/main/java/com/darius/project/service/ReservationService.java:18-23 | a null trip id gives no reservations; otherwise exactly the stored reservations of that trip |
| ReservationServices.Saved | Project_backend/src/main/java/com/darius/project/service/ReservationService.java:38-54 | refused exactly for a null reservation; otherwise stored under the id |
| ReservationServices.ReservationService.constructor | Project_backend/src/main/java/com/darius/project/service/ReservationService.java:16 | the service works on the given repository |
| ReservationServices.ReservationService.FindByTripId | Project_backend/src/main/java/com/darius/project/service/ReservationService.java:18-23 | the reservations of the trip |
| ReservationServices.ReservationService.FindById | Project_backend/src/main/java/com/darius/project/service/ReservationService.java:25-36 | null for a null id, else the stored reservation or null |
| ReservationServices.ReservationService.Save | Project_backend/src/main/java/com/darius/project/service/ReservationService.java:38-54 | the store becomes the saved store, or is unchanged with the refusal message |
| ReservationServices.ReservationService.Delete | Project_backend/src/main/java/com/darius/project/service/ReservationService.java:56-71 | the id is removed whether or not it was present |
| Wire.TripRecords | Project_backend/src/main/java/com/darius/project/networking/ClientHandler.java:108 | one record per trip, in order, each the trip's formatted record |
| Wire.UserRecords | Project_backend/src/main/java/com/darius/project/networking/ClientHandler.java:110 | one record per user, in order, each the user's formatted record |
| Wire.ParseUserFromString | Project_backend/src/main/java/com/darius/project/networking/ClientHandler.java:252-259 | a parsed user has at least three fields and takes its id, name and password from fields 0 to 2 |
| Wire.ParseTripFromString | Project_backend/src/main/java/com/darius/project/networking/ClientHandler.java:240-250 | a parsed trip has at least six fields and takes each attribute from its field, numbers parsed |
| Wire.SplitUserRecord | Project_backend/src/main/java/com/darius/project/networking/ClientHandler.java:110 | a user record splits into exactly its three fields when the text is field-safe |
| Wire.ParseUserOfFormatUser | Project_backend/src/main/java/com/darius/project/networking/ClientHandler.java:252-259 | the server's user record parses back to the same user |
| Wire.SplitTripRecord | Project_backend/src/main/java/com/darius/project/networking/ClientHandler.java:108 | a trip record splits into exactly its six fields when the text is field-safe |
| Wire.ParseTripOfFormatTrip | Project_backend/src/main/java/com/darius/project/networking/ClientHandler.java:240-250 | the server's trip record parses back to the same trip, given a price text that reads back |
| Wire.LargestId | Project_backend/src/main/java/com/darius/project/networking/ClientHandler.java:262-268 | the running maximum from 0 bounds every scanned id and is 0 or one of them |
| Wire.NextId | Project_backend/src/main/java/com/darius/project/networking/ClientHandler.java:269 | max + 1 exceeds every scanned id, unless the maximum is Integer.MAX_VALUE, where it wraps to Integer.MIN_VALUE |
| Wire.GenerateId | Project_backend/src/main/java/com/darius/project/networking/ClientHandler.java:272-281 | the scan loop computes the next id |
| Commands.Reserve | Project_backend/src/main/java/com/darius/project/networking/ClientHandler.java:116-140 | a missing trip or too few seats gives RESERVATION_FAILED and no change; success is exactly the case with a broadcast |
| Commands.MakeReservation | Project_backend/src/main/java/com/darius/project/networking/ClientHandler.java:112-145 | a number that does not parse gives the invalid-number-format failure and no change |
| Commands.ReservationIdIsOne | Project_backend/src/main/java/com/darius/project/networking/ClientHandler.java:261-270 | the reservation id the TCP server generates is always 1 |
| Commands.NewCustomerIdIsFresh | Project_backend/src/main/java/com/darius/project/networking/ClientHandler.java:272-281 | a new customer id is positive and unused unless some id is Integer.MAX_VALUE |
| Commands.ReserveSucceeds | Project_backend/src/main/java/com/darius/project/networking/ClientHandler.java:116-137 | a booking that passes the seat check replies, broadcasts, saves the reservation, reuses or creates the customer and takes the seats |
| Commands.ReserveTakesSeats | Project_backend/src/main/java/com/darius/project/networking/ClientHandler.java:133-134 | the seats left are the old count minus the tickets and not negative, and no other trip changes |
| Commands.ReserveKeepsWellformed | Project_backend/src/main/java/com/darius/project/networking/ClientHandler.java:112-145 | a booking keeps every record under its own id |
| Commands.TripCommand | Project_backend/src/main/java/com/darius/project/networking/ClientHandler.java:147-182 | a trip command broadcasts only on success and touches only the trips |
| Commands.UserCommand | Project_backend/src/main/java/com/darius/project/networking/ClientHandler.java:184-218 | a user command broadcasts only on success and touches only the users |
| Commands.TripRenameDeletesFirst | Project_backend/src/main/java/com/darius/project/networking/ClientHandler.java:157-174 | an update naming a different old id deletes it first, and the deletion stays when the update is refused |
| Commands.UserRenameDeletesFirst | Project_backend/src/main/java/com/darius/project/networking/ClientHandler.java:193-210 | the same for users: the old id is gone even when the update is refused |
| Commands.TripCommandKeepsKeys | Project_backend/src/main/java/com/darius/project/networking/ClientHandler.java:147-182 | every trip command keeps each trip under its own id |
| Commands.UserCommandKeepsConsistent | Project_backend/src/main/java/com/darius/project/networking/ClientHandler.java:184-218 | every user command keeps ids matching and usernames unique |
| Commands.SearchedTrips | Project_backend/src/main/java/com/darius/project/networking/ClientHandler.java:220-238 | with both times, exactly the stored trips matching the attraction and the range; with only an attraction, the matching ones; with neither, all |
| Commands.Execute | Project_backend/src/main/java/com/darius/project/networking/ClientHandler.java:36-89 | a line crashes exactly when it has too few fields; unknown commands get UNKNOWN_COMMAND; read-only commands change nothing; broadcasts are only the two update notices |
| Commands.ExecuteKeepsWellformed | Project_backend/src/main/java/com/darius/project/networking/ClientHandler.java:36-89 | every answered line keeps every record under its own id and usernames unique |
| Networking.Without | Project_backend/src/main/java/com/darius/project/networking/Server.java:42-44 | removing a handler drops its first occurrence only, and keeps the registry free of duplicates |
| Networking.Deliver | Project_backend/src/main/java/com/darius/project/networking/Server.java:36-40 | the sender gets its reply before the broadcast, and every other registered handler gets the broadcast once |
| Networking.Serve | Project_backend/src/main/java/com/darius/project/networking/ClientHandler.java:36-89 | a session never adds or removes connections |
| Networking.ServeKeepsWellformed | Project_backend/src/main/java/com/darius/project/networking/ClientHandler.java:36-89 | a whole session keeps the stores wellformed |
| Networking.ShortLineEndsSession | Project_backend/src/main/java/com/darius/project/networking/ClientHandler.java:39-88 | a known command with too few fields ends the session with nothing more answered |
| Networking.UnknownCommandAnswered | Project_backend/src/main/java/com/darius/project/networking/ClientHandler.java:79-81 | an unknown command is answered UNKNOWN_COMMAND and the session goes on |
| Networking.Server.constructor | Project_backend/src/main/java/com/darius/project/networking/Server.java:11-19 | the registry starts empty |
| Networking.Server.Accept | Project_backend/src/main/java/com/darius/project/networking/Server.java:21-34 | an accepted connection is registered before it runs, with nothing yet written to it |
| Networking.Server.Write | Project_backend/src/main/java/com/darius/project/networking/ClientHandler.java:283-285 | one line is appended to one connection |
| Networking.Server.BroadcastUpdate | Project_backend/src/main/java/com/darius/project/networking/Server.java:36-40 | every registered handler, the sender included, gets the message exactly once |
| Networking.Server.RemoveClient | Project_backend/src/main/java/com/darius/project/networking/Server.java:42-44 | the handler leaves the registry and the others stay in order |
| Networking.ClientHandler.constructor | Project_backend/src/main/java/com/darius/project/networking/ClientHandler.java:25-34 | the handler works over the given server and services |
| Networking.ClientHandler.SendMessage | Project_backend/src/main/java/com/darius/project/networking/ClientHandler.java:283-285 | one line on this handler's connection |
| Networking.ClientHandler.Answer | Project_backend/src/main/java/com/darius/project/networking/ClientHandler.java:136-137 | the reply, then the broadcast, delivered as Deliver describes |
| Networking.ClientHandler.HandleLogin | Project_backend/src/main/java/com/darius/project/networking/ClientHandler.java:91-94 | LOGIN_SUCCESS exactly when the login is valid over the current users |
| Networking.ClientHandler.SendTrips | Project_backend/src/main/java/com/darius/project/networking/ClientHandler.java:96-100 | the reply is every stored trip's record followed by ';' |
| Networking.ClientHandler.SendUsers | Project_backend/src/main/java/com/darius/project/networking/ClientHandler.java:102-106 | the reply is every stored user's record followed by ';' |
| Networking.ClientHandler.BuildUserList | Project_backend/src/main/java/com/darius/project/networking/ClientHandler.java:103-104 | the StringBuilder loop yields the record list |
| Networking.ClientHandler.BuildTripList | Project_backend/src/main/java/com/darius/project/networking/ClientHandler.java:97-98 | the StringBuilder loop yields the record list |
| Networking.ClientHandler.GenerateCustomerId | Project_backend/src/main/java/com/darius/project/networking/ClientHandler.java:272-281 | the scan over all customers computes the next id |
| Networking.ClientHandler.GenerateReservationId | Project_backend/src/main/java/com/darius/project/networking/ClientHandler.java:261-270 | the scan over findByTripId(null) computes the next id |
| Networking.ClientHandler.FindOrCreateCustomer | Project_backend/src/main/java/com/darius/project/networking/ClientHandler.java:122-127 | an existing customer with the name is reused with no write; otherwise a new one is saved under its new id |
| Networking.ClientHandler.MakeReservation | Project_backend/src/main/java/com/darius/project/networking/ClientHandler.java:112-145 | the stores and the output become what the booking command defines |
| Networking.ClientHandler.Record | Project_backend/src/main/java/com/darius/project/networking/ClientHandler.java:122-131 | the customer and reservation writes of a booking |
| Networking.ClientHandler.Book | Project_backend/src/main/java/com/darius/project/networking/ClientHandler.java:122-137 | after the seat check, the writes and the reply the booking command defines |
| Networking.ClientHandler.HandleTripUpdate | Project_backend/src/main/java/com/darius/project/networking/ClientHandler.java:147-182 | the stores and the output become what the trip command defines |
| Networking.ClientHandler.HandleUserUpdate | Project_backend/src/main/java/com/darius/project/networking/ClientHandler.java:184-218 | the stores and the output become what the user command defines |
| Networking.ClientHandler.SearchTrips | Project_backend/src/main/java/com/darius/project/networking/ClientHandler.java:220-238 | the reply lists the searched trips and nothing changes |
| Networking.ClientHandler.Dispatch | Project_backend/src/main/java/com/darius/project/networking/ClientHandler.java:41-82 | one line answered as the dispatch defines; a crash changes neither stores nor output |
| Networking.ClientHandler.CloseConnection | Project_backend/src/main/java/com/darius/project/networking/ClientHandler.java:287-294 | the handler leaves the registry |
| Networking.ClientHandler.Run | Project_backend/src/main/java/com/darius/project/networking/ClientHandler.java:36-89 | the session's stores and output, then the handler is no longer registered |
| ReservationApi.ClockId | Project_backend/src/main/java/com/darius/project/api/ReservationController.java:109-110 | the id is the clock reading modulo Integer.MAX_VALUE, non-negative and below it |
| ReservationApi.Create | Project_backend/src/main/java/com/darius/project/api/ReservationController.java:27-61 | a missing trip gives 400, a null ticket count 500, too few seats 400, each with no change; success is exactly status 201, with a reservation |
| ReservationApi.Cancel | Project_backend/src/main/java/com/darius/project/api/ReservationController.java:75-93 | an unknown id gives 404; success deletes exactly that reservation and leaves the customers; failure changes nothing |
| ReservationApi.ToDto | Project_backend/src/main/java/com/darius/project/api/ReservationController.java:95-107 | the DTO copies the reservation and takes the names from the stores, "Unknown" for a missing trip |
| ReservationApi.ToDtos | Project_backend/src/main/java/com/darius/project/api/ReservationController.java:66-67 | one DTO per reservation, in order |
| ReservationApi.CreateSucceeds | Project_backend/src/main/java/com/darius/project/api/ReservationController.java:41-55 | a create that passes the checks answers 201 with the DTO, saves under the clock id, reuses or creates the customer and takes the seats |
| ReservationApi.CreateTakesSeats | Project_backend/src/main/java/com/darius/project/api/ReservationController.java:51-52 | the seats taken are exactly the tickets and the count stays non-negative |
| ReservationApi.CancelRestoresSeats | Project_backend/src/main/java/com/darius/project/api/ReservationController.java:81-88 | cancelling gives the tickets back to the trip, with no upper bound, and deletes the reservation |
| ReservationApi.CancelWithoutTrip | Project_backend/src/main/java/com/darius/project/api/ReservationController.java:81-88 | cancelling with the trip gone still deletes it and changes no seats |
| ReservationApi.CancelUndoesCreate | Project_backend/src/main/java/com/darius/project/api/ReservationController.java:27-93 | cancelling what a create just made restores every trip and removes only the new reservation |
| ReservationApi.ReservationController.constructor | Project_backend/src/main/java/com/darius/project/api/ReservationController.java:20-24 | the controller works over the given services |
| ReservationApi.ReservationController.CreateReservation | Project_backend/src/main/java/com/darius/project/api/ReservationController.java:27-61 | the response and the stores are what the create defines |
| ReservationApi.ReservationController.ConvertToDto | Project_backend/src/main/java/com/darius/project/api/ReservationController.java:95-107 | the DTO of the reservation over the current stores |
| ReservationApi.ReservationController.GetReservationsByTrip | Project_backend/src/main/java/com/darius/project/api/ReservationController.java:63-73 | the trip's reservations, each converted, in order |
| ReservationApi.ReservationController.CancelReservation | Project_backend/src/main/java/com/darius/project/api/ReservationController.java:75-93 | the status, message and stores are what the cancel defines |
| WebSocket.Broadcast | Project_backend/src/main/java/com/darius/project/websocket/TripWebSocketHandler.java:58-66 | each other open session whose send succeeds gets the text once; the rest are unchanged; no session is added or removed |
| WebSocket.Incoming | Project_backend/src/main/java/com/darius/project/websocket/TripWebSocketHandler.java:24-40 | an envelope exists exactly when "type" is a string and "data" is present and not null |
| WebSocket.Relay | Project_backend/src/main/java/com/darius/project/websocket/TripWebSocketHandler.java:24-40 | exactly a parse failure is rethrown, while the JSON null document is dropped without rethrowing; the sender never receives its own message; a rejected message changes nothing |
| WebSocket.TripWebSocketHandler.constructor | Project_backend/src/main/java/com/darius/project/websocket/TripWebSocketHandler.java:14 | no sessions are registered |
| WebSocket.TripWebSocketHandler.Connect | Project_backend/src/main/java/com/darius/project/websocket/TripWebSocketHandler.java:18-21 | the session is registered under its id |
| WebSocket.TripWebSocketHandler.Close | Project_backend/src/main/java/com/darius/project/websocket/TripWebSocketHandler.java:43-46 | that id is unregistered and the others stay |
| WebSocket.TripWebSocketHandler.BroadcastMessage | Project_backend/src/main/java/com/darius/project/websocket/TripWebSocketHandler.java:48-67 | a null type or data throws; a serialization failure sends nothing; otherwise the loop performs the broadcast |
| WebSocket.TripWebSocketHandler.HandleTextMessage | Project_backend/src/main/java/com/darius/project/websocket/TripWebSocketHandler.java:24-40 | the sessions become what the relay defines |
| ClientRecords.UserOfRecord | Project_backend/src/main/java/com/darius/project/gui/OwnerRightsController.java:156-161 | a non-empty record reads exactly when the server's own parser accepts it, as the same user |
| ClientRecords.TripOfRecord | Project_backend/src/main/java/com/darius/project/gui/OwnerRightsController.java:178-186 | a non-empty record reads exactly when the server's own parser accepts it, as the same trip |
| ClientRecords.UsersOfRecordsConcat | Project_backend/src/main/java/com/darius/project/gui/OwnerRightsController.java:153-166 | records are read independently: a bad record is dropped and the ones after it are still read |
| ClientRecords.TripsOfRecordsConcat | Project_backend/src/main/java/com/darius/project/gui/OwnerRightsController.java:175-191 | the same independence for trip records |
| ClientRecords.ParseUsersFromString | Project_backend/src/main/java/com/darius/project/gui/OwnerRightsController.java:149-169 | the loop yields the users of the records that read, in order; an empty text gives none |
| ClientRecords.ParseTripsFromString | Project_backend/src/main/java/com/darius/project/gui/UserInterfaceController.java:97-122 | the loop yields the trips of the records that read, in order; an empty text gives none |
| ClientRecords.UserOfUserRecord | Project_backend/src/main/java/com/darius/project/gui/OwnerRightsController.java:155-165 | a window reads the server's user record as the same user |
| ClientRecords.TripOfTripRecord | Project_backend/src/main/java/com/darius/project/gui/OwnerRightsController.java:177-190 | a window reads the server's trip record as the same trip |
| ClientRecords.UsersOfUserRecords | Project_backend/src/main/java/com/darius/project/gui/OwnerRightsController.java:149-169 | the records of a list of safe users read back as that list |
| ClientRecords.TripsOfTripRecords | Project_backend/src/main/java/com/darius/project/gui/OwnerRightsController.java:171-194 | the records of a list of safe trips read back as that list |
| ClientRecords.ParseUserList | Project_backend/src/main/java/com/darius/project/gui/OwnerRightsController.java:149-169 | the server's user list reads back as the same users in the same order |
| ClientRecords.ParseTripList | Project_backend/src/main/java/com/darius/project/gui/UserInterfaceController.java:97-122 | the server's trip list reads back as the same trips in the same order |
| ClientRecords.Reason | Project_backend/src/main/java/com/darius/project/gui/OwnerRightsController.java:120 | the fallback without '#', else a proper suffix of the message |
| ClientRecords.ReasonOfTaggedReply | Project_backend/src/main/java/com/darius/project/gui/UserInterfaceController.java:71-73 | a reply tagged without '#' yields exactly the text after the tag |
| OwnerRights.ValidateUserFields | Project_backend/src/main/java/com/darius/project/gui/OwnerRightsController.java:243-247 | the form passes exactly when no field is blank, and the first blank field names the error |
| OwnerRights.ValidateTripFields | Project_backend/src/main/java/com/darius/project/gui/OwnerRightsController.java:326-333 | the form passes exactly when no field is blank; each of the six fields, when blank after the earlier ones are filled, gives its own error message |
| OwnerRights.AddUser | Project_backend/src/main/java/com/darius/project/gui/OwnerRightsController.java:228-241 | sends exactly when the form is valid and the id parses, as the server's own user record; a bad id is an error |
| OwnerRights.UpdateUser | Project_backend/src/main/java/com/darius/project/gui/OwnerRightsController.java:280-304 | sends exactly when valid, selected and parsed; the previous id travels only when it changed |
| OwnerRights.DeleteUser | Project_backend/src/main/java/com/darius/project/gui/OwnerRightsController.java:249-265 | the selection's id, else the typed id, else a warning or an error |
| OwnerRights.SearchUser | Project_backend/src/main/java/com/darius/project/gui/OwnerRightsController.java:267-278 | sends the trimmed name exactly when it is not blank |
| OwnerRights.UsernameEdited | Project_backend/src/main/java/com/darius/project/gui/OwnerRightsController.java:76-82 | asks for every user exactly when the field is blank |
| OwnerRights.AddTrip | Project_backend/src/main/java/com/darius/project/gui/OwnerRightsController.java:306-324 | sends exactly when valid and parsed, as the server's trip record with a two-decimal price |
| OwnerRights.UpdateTrip | Project_backend/src/main/java/com/darius/project/gui/OwnerRightsController.java:366-395 | sends exactly when valid, selected and parsed; the previous id travels only when it changed |
| OwnerRights.DeleteTrip | Project_backend/src/main/java/com/darius/project/gui/OwnerRightsController.java:335-351 | the selection's id, else the typed id, else a warning or an error |
| OwnerRights.SearchTrip | Project_backend/src/main/java/com/darius/project/gui/OwnerRightsController.java:353-364 | sends the trimmed attraction exactly when it is not blank |
| OwnerRights.AttractionEdited | Project_backend/src/main/java/com/darius/project/gui/OwnerRightsController.java:84-90 | asks for every trip exactly when the field is blank |
| OwnerRights.AttractionEditedSearches | Project_backend/src/main/java/com/darius/project/gui/OwnerRightsController.java:84-90 | typing an attraction makes the server search for the text as typed, untrimmed |
| OwnerRights.UsernameEditedAnswered | Project_backend/src/main/java/com/darius/project/gui/OwnerRightsController.java:76-82 | clearing the username field lists every user; typing in it is answered UNKNOWN_COMMAND |
| OwnerRights.React | Project_backend/src/main/java/com/darius/project/gui/OwnerRightsController.java:93-132 | a user list only from USERS#; a failure report only for a line with FAILED and without SUCCESS; a success only when SUCCESS appears |
| OwnerRights.UserUpdateFields | Project_backend/src/main/java/com/darius/project/gui/OwnerRightsController.java:293-298 | the server splits the update payload into the user's fields plus the previous id exactly when it changed |
| OwnerRights.TripUpdateFields | Project_backend/src/main/java/com/darius/project/gui/OwnerRightsController.java:382-387 | the server splits the update payload into the trip's fields plus the previous id exactly when it changed |
| OwnerRights.UserRequestDispatched | Project_backend/src/main/java/com/darius/project/networking/ClientHandler.java:54-62 | a user request line reaches the server's user command with its payload |
| OwnerRights.TripRequestDispatched | Project_backend/src/main/java/com/darius/project/networking/ClientHandler.java:67-75 | a trip request line reaches the server's trip command with its payload |
| OwnerRights.AddUserReachesServer | Project_backend/src/main/java/com/darius/project/gui/OwnerRightsController.java:228-241 | the ADD_USER the window sends makes the server save exactly the form's user under its id |
| OwnerRights.UpdateUserReachesServer | Project_backend/src/main/java/com/darius/project/gui/OwnerRightsController.java:280-304 | the UPDATE_USER the window sends updates in place, or deletes the selected id first when the id changed |
| OwnerRights.AddTripReachesServer | Project_backend/src/main/java/com/darius/project/gui/OwnerRightsController.java:306-324 | the ADD_TRIP the window sends makes the server save exactly the form's trip |
| OwnerRights.UpdateTripReachesServer | Project_backend/src/main/java/com/darius/project/gui/OwnerRightsController.java:366-395 | the UPDATE_TRIP the window sends updates in place, or deletes the selected id first when the id changed |
| OwnerRights.SearchUsersUnknown | Project_backend/src/main/java/com/darius/project/gui/OwnerRightsController.java:267-278 | the server has no SEARCH_USERS command: the search is answered UNKNOWN_COMMAND |
| OwnerRights.ReactToUsersReply | Project_backend/src/main/java/com/darius/project/gui/OwnerRightsController.java:101-104 | the reply to GET_USERS shows every stored user, as stored |
| OwnerRights.ReactToTripsReply | Project_backend/src/main/java/com/darius/project/gui/OwnerRightsController.java:105-108 | the reply to GET_TRIPS shows every stored trip, as stored |
| OwnerRights.FailureReadAsSuccess | Project_backend/src/main/java/com/darius/project/gui/OwnerRightsController.java:109-122 | a failure reply whose reason contains SUCCESS is announced as a success |
| OwnerRights.ReactToUserSuccess | Project_backend/src/main/java/com/darius/project/gui/OwnerRightsController.java:109-113 | any USER_ line mentioning SUCCESS is announced as a success |
| OwnerRights.ReactToUpdateNotices | Project_backend/src/main/java/com/darius/project/gui/OwnerRightsController.java:95-99 | UPDATE_USERS asks for GET_USERS and UPDATE_TRIPS asks for GET_TRIPS |
| OwnerRights.ReactToTripSuccess | Project_backend/src/main/java/com/darius/project/gui/OwnerRightsController.java:114-118 | any TRIP_ line mentioning SUCCESS is announced as a success |
| OwnerRights.ReactToUserFailure | Project_backend/src/main/java/com/darius/project/gui/OwnerRightsController.java:119-121 | a USER_ line with FAILED and without SUCCESS is reported with the text after its first '#', or "Unknown error" |
| OwnerRights.ReactToTripFailure | Project_backend/src/main/java/com/darius/project/gui/OwnerRightsController.java:123-125 | a TRIP_ line with FAILED and without SUCCESS is reported with the text after its first '#', or "Unknown error" |
| OwnerRights.ReactToSearchResults | Project_backend/src/main/java/com/darius/project/gui/OwnerRightsController.java:127-129 | a SEARCH_RESULTS# line shows the trips it carries |
| UserInterface.FilterAttractions | Project_backend/src/main/java/com/darius/project/gui/UserInterfaceController.java:154-168 | nothing is sent exactly when the attraction is blank; the times travel only when both are given |
| UserInterface.FilterReachesServer | Project_backend/src/main/java/com/darius/project/gui/UserInterfaceController.java:154-168 | the filter's request makes the server search the same attraction and, when given, the same range |
| UserInterface.MakeReservation | Project_backend/src/main/java/com/darius/project/gui/UserInterfaceController.java:170-216 | sends exactly when a trip is selected, name and phone are given and the tickets are between 1 and the seats; otherwise a warning |
| UserInterface.ReservationReachesServer | Project_backend/src/main/java/com/darius/project/gui/UserInterfaceController.java:210-215 | the reservation line books the selected trip for the trimmed name and phone and the typed tickets |
| UserInterface.CellColour | Project_backend/src/main/java/com/darius/project/gui/UserInterfaceController.java:134-144 | red exactly for no seats or too few; green exactly when the typed tickets fit; black when nothing positive is typed |
| UserInterface.GreenMeansBookable | Project_backend/src/main/java/com/darius/project/gui/UserInterfaceController.java:134-144 | a trip is green exactly when the typed tickets could be booked on it |
| UserInterface.React | Project_backend/src/main/java/com/darius/project/gui/UserInterfaceController.java:53-77 | a request exactly for UPDATE_TRIPS; a new trip list only from TRIPS#, always together with the attraction filter re-run over the filter fields; a filtered list only from SEARCH_RESULTS#; a failure report only for RESERVATION_FAILED lines; success only for RESERVATION_SUCCESS |
| UserInterface.ReactToTripsLine | Project_backend/src/main/java/com/darius/project/gui/UserInterfaceController.java:84-89 | a TRIPS# line shows the trips it carries and re-sends the attraction search, or clears the filtered list when the attraction is blank |
| UserInterface.ReactToTripsReply | Project_backend/src/main/java/com/darius/project/gui/UserInterfaceController.java:57-61 | the reply to GET_TRIPS shows every stored trip, as stored, and re-runs the attraction filter |
| UserInterface.ReactToSearchResults | Project_backend/src/main/java/com/darius/project/gui/UserInterfaceController.java:62-64 | a SEARCH_RESULTS# line shows the filtered trips it carries |
| UserInterface.ReactToSuccess | Project_backend/src/main/java/com/darius/project/gui/UserInterfaceController.java:65-69 | RESERVATION_SUCCESS is announced as a successful reservation |
| UserInterface.ReactToFailure | Project_backend/src/main/java/com/darius/project/gui/UserInterfaceController.java:70-74 | every RESERVATION_FAILED line is reported with its reason |
| UserInterface.ReactToReservation | Project_backend/src/main/java/com/darius/project/gui/UserInterfaceController.java:53-77 | a booking's success is announced; a refusal for seats shows the default reason; any other failure shows the server's reason |
| UserInterface.UserInterfaceController.constructor | Project_backend/src/main/java/com/darius/project/gui/UserInterfaceController.java:21 | no tickets are typed at first |
| UserInterface.UserInterfaceController.TicketsEdited | Project_backend/src/main/java/com/darius/project/gui/UserInterfaceController.java:36-44 | the typed number, or 0 when it does not parse |
| UserInterface.UserInterfaceController.TripColour | Project_backend/src/main/java/com/darius/project/gui/UserInterfaceController.java:134-144 | green only when the typed tickets fit the trip; red only when it is full or too small |

## Left out

- HashMap iteration order is unspecified in Java. The model enumerates every store in ascending id order, so "the first user with this name" means the one with the smallest id.
- Prices are doubles. The model keeps them opaque and takes `Double.toString`, `Double.parseDouble` and `String.format("%.2f")` as parameters. In a locale with a decimal comma, `%.2f` writes a ',' that breaks the record. The round-trip lemmas therefore take, as a premise, a price text that is field-safe and reads back.
- `Integer.parseInt` is modelled on ASCII digits only; Java also accepts other Unicode decimal digits.
- The SQL `LIKE` and `BETWEEN` of the database repositories are modelled as plain substring containment and code-point order. Collation and wildcard characters inside the search text are not modelled.
- The database and Hibernate repositories are not part of this model. Every service is modelled over the in-memory store's map, with one exception: ReservationServices.ReservationsOfTrip gives the empty list for a null trip id, as `ReservationDB.findByTripId` does; the in-memory repository has no `findByTripId`.
- Commands.ReserveSucceeds: saving a reservation follows the in-memory map, so every booking over TCP stores reservation 1 in place of the one before (Commands.ReservationIdIsOne). `ReservationDB.save` only runs an `INSERT`; when the table refuses a repeated id, the failure is logged and the new reservation is not stored.
- Commands.Reserve, Networking.ClientHandler.Book, ReservationApi.Create, ReservationApi.Cancel: the trip is read from the store as a value, and the new seat count reaches the store only through the trip update. Java sets the count on the stored `Trip` object itself before calling `tripService.update`. If that update throws, which needs a trip stored under a key other than its own id, Java's store already holds the new count while the model keeps the old trips. No writer stores a trip under another key: TripServices.KeysMatch is preserved, and under it the update succeeds (Commands.ReserveSucceeds, ReservationApi.CreateSucceeds, ReservationApi.CancelRestoresSeats).
- Sockets, `IOException`, the accept loop's thread pool, `main` and the port number are not modelled. A connection is its sequence of input lines and the lines written to it.
- Concurrency is not modelled: handlers on different threads sharing the stores and the registry, and broadcasts interleaving with replies.
- The clock that gives the REST ids is a parameter. Two ids that collide overwrite the earlier record, as in the source.
- JSON parsing and serialization (Jackson) are parameters of the WebSocket relay: the parse result (an I/O error, the null document, or the object's entries), and an encoder that may fail.
- JavaFX alerts, clearing fields, border styles and the initial requests the windows send on start are not modelled. The windows are modelled by the request they send and the reaction they choose.
- A null customer name or phone in a REST request is modelled as an ordinary text.
- ReservationApi.CancelRestoresSeats: the exact arithmetic sum is stated only when it fits in an `int`; otherwise only the wrapped value is stated.
- Commands.ReserveTakesSeats: the non-negative remaining count is stated only when the subtraction does not overflow. Overflow needs a negative ticket count, which the server does not reject.
- UserInterface.React: states the implications towards the message kind. The converse is stated by the separate lemmas ReactToTripsLine, ReactToSearchResults, ReactToSuccess and ReactToFailure.
- OwnerRights.React: states the implications towards the message kind. The converse is stated per branch by the lemmas ReactToUpdateNotices, ReactToUsersLine, ReactToTripsLine, ReactToUserSuccess, ReactToTripSuccess, ReactToUserFailure, ReactToTripFailure and ReactToSearchResults.
