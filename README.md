# Syntax-example logic, modelled and verified in Dafny

The repository is a set of syntax examples for a colour theme. Three of its
example programs hold small pieces of real logic, and this project models
those pieces and proves what they promise:

- `examples/example.go`: an in-memory user table. `UserService` owns a map
  from ID to user. `CreateUser` validates a name and an email, assigns
  `len + 1` as the ID and inserts the user. `GetUser` looks an ID up.
  `ListUsers` collects the active users. `main` seeds three sample users.
  The model is the class `UserService.UserService`, holding a
  `map<int, User>`. Its invariant `TableInvariant` says that the keys are
  exactly `1..n`, that every user is stored under its own ID, and that every
  user is active with a non-empty name and email.
- `examples/example.rs`: the `i32` helpers `add`, `sub`, `const_add`,
  `documented_add` and `make_adder`. Also the accumulating
  `Summable::sum` loop for `Vec<i32>`, `longest`, `Point::new` and the
  `my_vec!` builder (module `RustHelpers`).
- `examples/example.java`: the `Status` enum and its labels, and the `Point`
  record's compact constructor that rejects negative coordinates. Also the
  classic and enhanced `switch` on `localVar`, and the `for`, `while` and
  `do-while` loops of `methodExample` (module `JavaFragments`).

Shared pieces are in `common.dfy`: `Results` holds `Option` and `Result`,
and `Ints` holds the 32-bit range and Java's wrapping `++`.

Integer widths. Rust panics on `i32` overflow in a debug build, so the Rust
arithmetic requires its results to fit in an `i32`. Java's `int` never
panics, so Java's `++` is modelled with its wrap-around. That wrap matters in
one place: `do { localVar++; } while (localVar < 10)` started at
`Integer.MAX_VALUE` wraps to the smallest `int` and then climbs to 10. It
does not stop at `start + 1`. Go's `int` IDs are modelled unbounded.

## Model

| member | source | states |
|---|---|---|
| `UserService.UserService.constructor` | examples/example.go:24-29 | a new service holds no users and satisfies the table invariant |
| `UserService.UserService.CreateUser` | examples/example.go:31-46 | an empty name or email gives the error "name and email are required" and leaves the map unchanged; otherwise the result is an active user with ID `old count + 1` and the given name and email, that ID was not a key before, the map gains exactly that one entry, every earlier entry is untouched, and the invariant still holds |
| `UserService.UserService.GetUser` | examples/example.go:48-52 | a user is found iff the ID is a key, the found user is the stored one, and in a valid service it carries the requested ID |
| `UserService.UserService.ListUsers` | examples/example.go:54-63 | every listed user is a stored active user; every stored active user is listed; the list has one element per active ID; in a valid service that is every stored user |
| `UserService.InsertKeepsInvariant` | examples/example.go:37-44 | when the keys are exactly `1..n`, the next ID `n + 1` is not a key and exceeds every key, so the insert never overwrites; inserting a well-formed active user under it grows the map by exactly one, keeps every old entry and keeps the keys exactly `1..n+1` |
| `UserService.AllStoredUsersActive` | examples/example.go:41-62 | under the table invariant the active IDs are all the keys, so the active filter drops nothing |
| `UserService.Accepted` | examples/example.go:127-132 | the samples `main` creates are its samples with a non-empty name and email: each one kept is such a sample, every such sample is kept, and when all samples are well formed all of them are kept in their order |
| `UserService.AcceptedKeepsEveryCopy` | examples/example.go:127-132 | each well-formed sample is created exactly as many times as it occurs among the samples, and a malformed one never; with `AcceptedIsSubsequence` this fixes the created list as the in-order run of the well-formed samples |
| `UserService.AcceptedIsSubsequence` | examples/example.go:127-132 | the samples `main` creates keep their input order: they sit at strictly increasing positions of the sample list |
| `UserService.SeedUsers` | examples/example.go:127-134 | creating samples in turn on a fresh service and skipping failures yields users with IDs 1, 2, ... in order, holding the accepted names and emails, and those users are the whole map |
| `UserService.SeedSampleUsers` | examples/example.go:115-134 | seeding Alice, Bob and Carol yields IDs 1, 2, 3 and keys exactly {1, 2, 3} |
| `RustHelpers.Sub` | examples/example.rs:8 | the difference, added back to `b`, gives `a` |
| `RustHelpers.Add` | examples/example.rs:7 | the sum fits in `i32`, and subtracting either operand gives back the other |
| `RustHelpers.ConstAdd` | examples/example.rs:156 | `const_add` agrees with `add` |
| `RustHelpers.DocumentedAdd` | examples/example.rs:185-186 | `documented_add` agrees with `add` (with its operands swapped, so it also commutes) |
| `RustHelpers.AddTwoThree` | examples/example.rs:131-134 | the unit test's `add(2, 3) == 5` |
| `RustHelpers.ConstValueIsFive` | examples/example.rs:228 | the constant `VALUE = const_add(2, 3)` is 5, the same as `add(2, 3)` |
| `RustHelpers.MakeAdder` | examples/example.rs:182 | the closure is defined at every `y` where `x + y` fits, and there it returns `add(x, y)` |
| `RustHelpers.FoldSumIsTotal` | examples/example.rs:31-37 | the left fold from the default 0 equals an independent right-nested sum |
| `RustHelpers.Sum` | examples/example.rs:27-37 | the accumulating loop returns the left fold of `+` over the vector, which is its total |
| `RustHelpers.SumOfEmpty` | examples/example.rs:32-36 | calling the accumulating loop on an empty vector returns `i32::default()`, which is 0 |
| `RustHelpers.SumOneTwoThree` | examples/example.rs:213-214 | `vec![1, 2, 3]` sums to 6 |
| `RustHelpers.Longest` | examples/example.rs:59-61 | the result is one of the two arguments, its length is the larger length, and a tie goes to `a` |
| `RustHelpers.LongestPicksSecondOnlyIfLonger` | examples/example.rs:60 | `b` is returned instead of `a` only when `b` is strictly longer, and when the lengths differ the argument order does not matter |
| `RustHelpers.NewPoint` | examples/example.rs:138-140 | `x` is stored in field `x` and `y` in field `y` |
| `RustHelpers.MyVec` | examples/example.rs:75-83 | the vector has one element per argument, in the order given |
| `JavaFragments.Status.Label` | examples/example.java:136-148 | `getLabel` returns "Active" exactly for `ACTIVE` and "Inactive" exactly for `INACTIVE`, the labels the constants are built with |
| `JavaFragments.LabelsAreDistinct` | examples/example.java:136-138 | two constants have the same label iff they are the same constant |
| `JavaFragments.NewPoint` | examples/example.java:151-159 | construction succeeds iff both coordinates are non-negative, keeps `x` and `y` unchanged, and otherwise throws `IllegalArgumentException` |
| `JavaFragments.SwitchResult` | examples/example.java:59-63 | the result is "One" iff the value is 1, "Two" iff it is 2, and "Other" otherwise |
| `JavaFragments.ClassicSwitch` | examples/example.java:47-56 | the classic switch prints what the enhanced switch yields |
| `JavaFragments.ForLoop` | examples/example.java:66-70 | the print is reached for `i` = 0, 1, 2, 3, 4, 6, 7 only, in that order |
| `JavaFragments.WhileDown` | examples/example.java:79-81 | a positive value ends at 0, and any other value is left unchanged |
| `JavaFragments.DoWhileUp` | examples/example.java:84-86 | the body runs at least once; from at most 9, or from `Integer.MAX_VALUE` after wrapping, it ends at 10; otherwise at `start + 1` |
| `JavaFragments.LocalVarTrace` | examples/example.java:34-86 | from 42 the `while` loop leaves 0 and the `do-while` loop then leaves 10 |
| `Ints.WrappingIncrement` | examples/example.java:85 | Java's `++` adds one, except that the largest `int` wraps to the smallest; it is always `+1` modulo 2^32 |

## Left out

- `handleUsers`, the `http.Server` setup and `ListenAndServe` in `example.go`: network I/O. The same goes for `strconv.Atoi` parsing of the query.
- All console output (`fmt.Printf`, `log.Printf`, `println!`, `System.out.println`). The printed lines of the classic switch and of the `for` loop become out-parameters.
- `UserService.UserService.ListUsers`: Go visits a map in a random order. The loop picks any remaining key, so the order of the result is unspecified, as in Go.
- Pointers to users: the Go map holds `*User` pointers. The model stores user values, so aliasing of a returned pointer that a caller then mutates is not captured.
- `UserService.UserService.CreateUser`, `UserService.UserService.GetUser`, `UserService.UserService.ListUsers`: each operation is modelled as one indivisible step, with calls one after another. `net/http` serves each connection in its own goroutine, so handlers for requests on different connections run concurrently, and the map is not locked: two concurrent POSTs can both read `len(us.users)` as n and write under n + 1, the second overwriting the first, or the runtime aborts with "concurrent map writes". Concurrent handlers are not modelled, so the keys being exactly `1..n` and the insert never overwriting hold only when operations run one at a time.
- `UserService.UserService.CreateUser`: Go's `int` ID is modelled unbounded. An overflow of `len + 1` past the platform's `int` is not modelled.
- `RustHelpers.Sum`: only the `i32` instance of the generic `Summable<T>` is modelled. It requires every running total to fit in `i32`, which is the case in which a debug build does not panic.
- `RustHelpers.Add`, `RustHelpers.Sub`, `RustHelpers.ConstAdd`, `RustHelpers.DocumentedAdd`, `RustHelpers.MakeAdder`: they require the result to fit in `i32`. Release-build wrap-around is not modelled.
- `RustHelpers.Longest`: strings are byte sequences, as `len()` counts bytes. UTF-8 well-formedness is not modelled.
- Rust `PI`, `Point::magnitude` and `call_fabs`/`fabs`: floating point and a foreign call.
- Rust `GLOBAL_COUNTER`, `async_add`/`block_on` and the `Rc`/`RefCell`/`Arc` demo: unsafe global state, an async runtime and shared ownership.
- Rust `match_examples` and `closure_examples`: they only print.
- Rust `loops_and_labels`: it returns nothing and prints nothing, so it has no observable effect.
- Rust `secret` returns a constant string, `Greet::greet` only formats with `format!`, and `IteratorExt::next_item` only delegates to `Iterator::next`. The `Message`/`Color`/`Unit` types are declarations without logic.
- Java `try`/`catch`/`finally`, try-with-resources, the lambda, the method reference, the Stream pipeline and `genericMethod`: I/O and thin wrappers over library APIs.
- Java's sign test on `localVar` (`Positive`/`Negative`/`Zero`) and the enhanced `for` over an empty list: they only print.
- Java's static initialiser, the `volatile`/`transient` fields, the constructor, the nested and inner classes, `Shape` and the interface and parent class: they declare structure or reference types that the file does not contain.
- `JavaFragments.Status.Label`: Java's implicit enum members (`name`, `ordinal`, `valueOf`) are not modelled.
- The packaging and version-bump shell scripts are not part of this model.
