# Fake authorization server of the hierarchy-configuration validator

The validator of the hierarchical-namespaces controller decides its
authorization questions through a two-query capability (`serverClient`):
"is the caller an admin of namespace N?" and "does namespace N exist?". Its
tests answer those questions with `fakeServer`, a deterministic fixture
written as a plain string: every single rune before the first colon is a
namespace the caller administers, and so is the colon itself; every single
non-colon rune after it is a namespace that does not exist. With no colon,
the whole string is the admin half. This project models that fixture and
proves what its two queries answer.

- `FakeServerSpec` (fake_server_spec.dfy) describes the encoding
  declaratively. `FirstColon` gives the position of the separator.
  `AdminHalf`, `MissingHalf` and `AdminScope` give the parts of the string.
  `Admin` and `Missing` describe the two answers, and `Encode` builds a
  server from its two halves. Its lemmas relate these definitions to each
  other and to independent readings of the doc comment.
- `FakeServer` (fake_server.dfy) has `IsAdmin` and `Exists` as methods. They
  use the same loops as the Go code: the same early returns, including the
  `continue`s and the `foundColon` flag of `Exists`. Each method is proved
  against the spec predicates.
- `AuthzTable` (authz_table.dfy) works out every answer of each of the nine
  server strings used by the `TestAuthz` table: "", "a", "b", "ab", "ac",
  "bc", "abc", "a:z" and "ab:z". It also covers "a:a", which is not in the
  table, as an example that the halves are independent. `TableQueries` is a
  usage example: it shows that the method contracts alone give the answers
  for "a:z" and "ab:z".

A Go string is modelled as `seq<char>` with one element per rune, matching
what `for … range` produces. The Go test `nnm == string(n)` becomes
`nnm == [n]`. The returned `error` is an `Option<string>`. The context and
user-info arguments are ignored by the source, so they are not parameters
here.

## Model

| member | source | states |
|---|---|---|
| FakeServer.IsAdmin | internal/hierarchyconfig/validator_test.go:337-347 | the loop answers exactly `Admin(f, nnm)`, and its error is always nil |
| FakeServer.Exists | internal/hierarchyconfig/validator_test.go:349-364 | the loop with its `foundColon` flag answers exactly `!Missing(f, nnm)`, and its error is always nil |
| FakeServerSpec.FirstColon | internal/hierarchyconfig/validator_test.go:330-334 | the separator is the first colon: no colon before it, a colon at it, and it sits at the end exactly when the string has no colon |
| FakeServerSpec.FirstColonOfEncode | internal/hierarchyconfig/validator_test.go:330-334 | in `admins ':' missing` with a colon-free admin part, the first colon is the separator |
| FakeServerSpec.DecodeEncode | internal/hierarchyconfig/validator_test.go:330-334 | encoding two halves and splitting again at the first colon gives both halves back |
| FakeServerSpec.EncodeDecode | internal/hierarchyconfig/validator_test.go:330-334 | every string with a colon is the encoding of its colon-free admin half and its missing half |
| FakeServerSpec.NoColonHalves | internal/hierarchyconfig/validator_test.go:334 | with no colon, the whole string is the admin half and the missing half is empty |
| FakeServerSpec.AdminAtOrBeforeFirstColon | internal/hierarchyconfig/validator_test.go:337-347 | `n` is an admin iff it is one rune that occurs at a position with no colon before it |
| FakeServerSpec.AdminOfEncode | internal/hierarchyconfig/validator_test.go:338-344 | on `admins ':' missing`, the admins are the runes of `admins` plus the name ":" |
| FakeServerSpec.AdminOfNoColon | internal/hierarchyconfig/validator_test.go:338-346 | on a string with no colon, the admins are exactly its one-rune names |
| FakeServerSpec.AdminBeforeColon | internal/hierarchyconfig/validator_test.go:330-332 | every one-rune name other than ":" is an admin iff its rune is strictly before the first colon |
| FakeServerSpec.AdminColon | internal/hierarchyconfig/validator_test.go:339-343 | the name ":" is an admin iff the string contains a colon, because the name test comes before the colon test |
| FakeServerSpec.AdminDependsOnlyOnScope | internal/hierarchyconfig/validator_test.go:338-344 | two strings that agree up to and including the first colon give the same admin answer for every name |
| FakeServerSpec.AdminIgnoresMissingHalf | internal/hierarchyconfig/validator_test.go:338-344 | replacing the missing half never changes an admin answer |
| FakeServerSpec.MissingAfterFirstColon | internal/hierarchyconfig/validator_test.go:349-364 | `n` fails the existence check iff it is one rune, not a colon, that occurs at a position with a colon before it |
| FakeServerSpec.MissingOfEncode | internal/hierarchyconfig/validator_test.go:350-361 | on `admins ':' missing`, the missing names are the non-colon runes of `missing` |
| FakeServerSpec.ColonExists | internal/hierarchyconfig/validator_test.go:352-354 | the name ":" always exists, because colons are skipped before the name is compared |
| FakeServerSpec.MissingOfNoColon | internal/hierarchyconfig/validator_test.go:350-358 | with no colon, every name exists |
| FakeServerSpec.MissingIgnoresAdminHalf | internal/hierarchyconfig/validator_test.go:356-358 | replacing the colon-free admin half never changes an existence answer |
| FakeServerSpec.NotOneRune | internal/hierarchyconfig/validator_test.go:339 | a name that is not exactly one rune, the empty name included, is never an admin and always exists |
| FakeServerSpec.AdminAndMissing | internal/hierarchyconfig/validator_test.go:337-364 | the halves are independent: a rune in both is an admin and also missing |
| AuthzTable.ServerAColonZ | internal/hierarchyconfig/validator_test.go:295 | for "a:z", the admins are exactly "a" and ":", and the only missing name is "z" |
| AuthzTable.ServerAbColonZ | internal/hierarchyconfig/validator_test.go:297 | for "ab:z", the admins are exactly "a", "b" and ":", and the only missing name is "z" |
| AuthzTable.ServerA | internal/hierarchyconfig/validator_test.go:287 | for "a" (also lines 290 and 294), the only admin is "a", and every namespace exists |
| AuthzTable.ServerB | internal/hierarchyconfig/validator_test.go:289 | for "b" (also line 293), the only admin is "b", and every namespace exists |
| AuthzTable.ServerBc | internal/hierarchyconfig/validator_test.go:288 | for "bc" (also line 291), the admins are exactly "b" and "c", and every namespace exists |
| AuthzTable.ServerAc | internal/hierarchyconfig/validator_test.go:292 | for "ac", the admins are exactly "a" and "c", and every namespace exists |
| AuthzTable.ServerAb | internal/hierarchyconfig/validator_test.go:296 | for "ab" (also line 300), the admins are exactly "a" and "b", and every namespace exists |
| AuthzTable.ServerAbc | internal/hierarchyconfig/validator_test.go:298 | for "abc", the admins are exactly "a", "b" and "c", and every namespace exists |
| AuthzTable.EmptyServer | internal/hierarchyconfig/validator_test.go:299 | for the empty server, no name is an admin and every namespace exists |
| AuthzTable.ServerAColonA | internal/hierarchyconfig/validator_test.go:337-364 | for "a:a", a string not in the table, "a" is an admin and also missing |

## Left out

- The validator's `handle` decision is not modelled: its structural, authorization and conflict checks are not part of this model. The same holds for the forest, `foresttest.Create`, the managed-metadata configuration and the object reconciler. The tests call them, but their source is not part of this model.
- The test-table outcomes (the 401/403/503 codes) depend on `handle` and the forest, so only the fake server's answers to those cases are proved.
- api/v1alpha2/groupversion_info.go only declares constants and registers a scheme with controller-runtime, so there is no logic in it to verify.
- The `context.Context` and `*authn.UserInfo` arguments are left out because both queries ignore them. Logging, gomega assertions and status formatting are left out as well.
- UTF-8 decoding is left out: each string element is taken to be one decoded rune, so invalid byte sequences are not modelled.
- Concurrency is left out: a fake server is an immutable value with no shared state.
