# Shop pricing, cart and account core in Dafny

A Dafny model of the rule logic of a Django shop. It covers five parts:

- **Product discounts and discount codes.** Their `clean` rules, validity window, and percent or fixed-amount application. Also a product's final price, the slug `Product.save` picks, soft deletion and restore, and the category branch listing (`discounts.dfy`, `catalog.dfy`).
- **Order pricing.** Tiered shipping by total weight, the `discount_amount` field, `final_price = max(total − discount + shipping, 0)`, and item line totals (`order_models.dfy`).
- **Cart and checkout.** Variant-stock resolution for add-to-cart, discount-code validation, and the checkout update (`order_serializers.dfy`). Also the cart, checkout, receipt and order-list views (`order_views.dfy`).
- **Account models.** `create_user` and `create_superuser`, the phone and postal-code validators, and the one-default-address rule (`account_models.dfy`).
- **Account serializers.** Sign-up with a one-time password (OTP), OTP verification, login, address creation and the profile confirmation update (`account_serializers.dfy`).

## How the model is built

- **Tables.** Each app's tables are the fields of a class: `Catalog.CatalogDb`, `OrderModels.OrderDb` and `AccountModels.AccountDb`. A model instance that is changed and then saved is an update of its row.
- **Orders.** Orders are a sequence. An order's id is its position, and ids follow creation order, so "newest first" means "highest id first".
- **Keys.** Users are keyed by email, and discount codes by their code string, which the code column holds uniquely. An order refers to its discount code by that string.
- **OTP store.** The Redis store of one-time passwords is a map from email to code.
- **Arithmetic.** Money and weights are exact `real`s, as Python `Decimal`s are.
- **Time.** The clock is an integer `now` passed to every operation that reads it.
- **Invariants.** The state-changing methods keep three invariants:
  - `OrderDb.Valid`: every order's `total_price` is the sum of its items' line totals, items are well formed, and each user has at most one cart.
  - `CatalogDb.Valid`: slugs are unique, there is one stock row per (product, colour), and stored codes pass `clean`.
  - `AccountDb.Valid`: users are keyed by email, phone numbers are unique, and each user has at most one default address.
- **Method contracts.** Each operation that changes the tables states the new tables outright. The client methods `OrderViews.AddThenRemove` and `AccountSerializers.VerifyTwice` chain two operations and state only the property they exhibit.

### Behaviour kept as the code has it

- **The stored discount.** `Order.apply_discount` stores the discounted price in `discount_amount`, not the amount taken off. 10% off 100 stores 90 (`OrderModels.TenPercentOfHundredStoresNinety`), while order/tests.py:47 expects 10.
- **The last use of a code.** Checkout counts the use of a code before it recomputes the order, and the recomputation applies the code only while it is still valid. Redeeming the last use of a code therefore gives no discount (`OrderSerializers.LastUseGivesNoDiscount`). With the default `max_uses` of 1, that last use is the only use.
- **Inactive and deleted products.** Cart validation looks products up without filtering on `is_active` or `is_deleted`.
- **Duplicate lookups.** A colour or feature-value lookup that matches two rows fails with `MultipleMatches`, where the code's `.get()` raises.
- **Login.** The serializer's `validate` receives what `authenticate` returned. Django's default backend (`AccountSerializers.DefaultAuthenticate`) never returns an inactive user, so with it an unverified account gets "invalid credentials", and the serializer's "not verified" branch is unreachable (`AccountSerializers.DefaultBackendNeverNotVerified`). That branch is taken only with a backend that returns inactive users.

## Model

| member | source | states |
|---|---|---|
| Discounts.Clean | product/models.py:262-276 | no error exactly when the discount is admissible; otherwise the first failing check in the code's order: a percent over 100, then an amount over the product's price, then an end not after the start |
| Discounts.CleanCode | product/models.py:330-339 | no error exactly when the code is admissible; otherwise the first failing check in the code's order: a percent over 100, then an end not after the start, then `used_count > max_uses` |
| Discounts.Reduce | product/models.py:292-295 | a fixed amount never leaves a negative price and takes exactly the value off a price that covers it, else gives 0; an unknown type and a zero discount change nothing |
| Discounts.IsValid | product/models.py:283-285 | a valid discount is active with a non-empty window, and no discount is valid outside its window |
| Discounts.Apply | product/models.py:287-296 | an invalid discount or unknown type leaves the price unchanged; a valid fixed amount never gives a negative price and takes the value off a price that covers it |
| Discounts.CodeIsValid | product/models.py:346-348 | a valid code is active, inside its window and below `max_uses`; outside the window or used up it is not valid |
| Discounts.ApplyCode | product/models.py:350-357 | an invalid code or unknown type leaves the price unchanged; a valid fixed amount never gives a negative price and takes the value off a price that covers it |
| Discounts.ReduceWithinPrice | product/models.py:292-295 | for price ≥ 0, value ≥ 0 and a percent of at most 100, the reduced price lies in [0, price] |
| Discounts.AmountNeverNegative | product/models.py:294-295 | a fixed-amount discount never gives a negative price, and gives `price − value` when the value fits |
| Discounts.PercentExamples | product/models.py:292-293 | 10% off 1000 is 900 and 20% off 1000 is 800 |
| Discounts.ApplyIsIdentityUnlessValid | product/models.py:287-296 | `apply_discount` returns the price unchanged when the discount is not valid or its type is unknown |
| Discounts.WindowInclusive | product/models.py:283-285 | an active discount is valid at both ends of its window and not one step outside it |
| Discounts.ExhaustedCodeNeverValid | product/models.py:346-357 | a code whose `used_count` reached `max_uses` is never valid, at any time, and leaves every price unchanged |
| Discounts.RedeemKeepsCodeAdmissible | product/models.py:330-348 | one more use of a valid, admissible code still passes `clean` and stays within `max_uses` |
| Catalog.FinalPriceIsApplied | product/models.py:137-141 | the final price is the price without a discount, and the discount's `apply_discount` of it otherwise |
| Catalog.FinalPriceWithinPrice | product/models.py:137-141 | with an admissible discount of non-negative value, the final price lies between 0 and the price |
| Catalog.FinalPrice | product/models.py:137-141 | without a valid discount, or with a discount of unknown type, the final price is the price; a valid fixed-amount discount never makes it negative |
| Catalog.NatToString | product/models.py:129 | the decimal form of `n` is non-empty, and one character long exactly for `n < 10` |
| Catalog.NatToStringInjective | product/models.py:129 | distinct numbers have distinct decimal forms |
| Catalog.CandidateInjective | product/models.py:126-130 | distinct loop counters give distinct slug candidates |
| Catalog.UniqueSlug | product/models.py:124-131 | the slug is not taken; it is the base when the base is free, else `base-n` for the least `n ≥ 1` with all earlier candidates taken |
| Catalog.Children | product/models.py:39 | lists exactly the ids of the categories whose parent is the given id |
| Catalog.AllBranches | product/models.py:37-41 | for a main branch, lists every child and nothing but children; nothing for any other category |
| Catalog.ShowRelatedBranches | product/models.py:43-55 | ends with the category itself (main branch) or its parent, preceded by exactly that category's children |
| Catalog.CatalogDb.SaveProduct | product/models.py:122-132 | a non-empty slug is kept; an empty one gets the first free candidate; the row is written unless another row holds the slug; unique slugs are preserved |
| Catalog.CatalogDb.SoftDeleteProduct | product/models.py:143-147 | the row is saved deleted and inactive; a non-empty slug is kept and nothing else changes; an empty slug gets the first free candidate, as in `save` |
| Catalog.CatalogDb.RestoreProduct | product/models.py:149-153 | the row is saved not deleted and active; a non-empty slug is kept and nothing else changes; an empty slug gets the first free candidate, as in `save` |
| Catalog.CatalogDb.SaveDiscount | product/models.py:248-281 | `clean` against the product's price runs first; then a product that already has another discount row refuses it (one-to-one); otherwise the row is written to the product, moving from the product that held it, and is admissible |
| Catalog.CatalogDb.SaveCode | product/models.py:312-344 | `clean` runs first; then a code held by another row is refused (unique); otherwise the row is stored under its code, an edited code leaving its old key; the table invariant is kept |
| Catalog.CatalogDb.SoftDeleteCategory | product/models.py:57-60 | only the category's `is_deleted` becomes true |
| Catalog.CatalogDb.RestoreCategory | product/models.py:62-65 | only the category's `is_deleted` becomes false |
| OrderModels.ShippingMonotone | order/models.py:58-68 | for weights ≥ 0 shipping is never negative and never lower for a heavier order |
| OrderModels.ShippingBoundaries | order/models.py:58-68 | the tiers: 0 for 0, 5 up to 5, 10 up to 10, and 1.5 × weight above |
| OrderModels.ShippingCost | order/models.py:58-68 | shipping is free exactly for a weightless order, costs at least 5 for any positive weight, at most 10 up to weight 10, and more than 15 above it |
| OrderModels.OrderWeightNonNegative | order/models.py:60 | with non-negative quantities and weights the order's weight, the sum of its items' `get_total_weight`, is non-negative; an order without items weighs 0 and ships free |
| OrderModels.ItemsTotalConcat | order/api/views.py:41-42 | an order's sum over two lists of items is the sum of its sums over each |
| OrderModels.ItemsTotalAppend | order/api/views.py:41 | appending an item adds its line total to its own order's sum and nothing to the others |
| OrderModels.ItemsTotalRemove | order/api/views.py:66-67 | deleting an item takes its line total off its own order's sum and nothing off the others |
| OrderModels.Recomputed | order/models.py:77-81 | after `update_final_price`, `final_price = max(total − discount_amount + shipping, 0) ≥ 0`, the discount and shipping are recomputed, and nothing else changes |
| OrderModels.DiscountAmount | order/models.py:70-75 | 0 without a code or with one that is missing or not valid; otherwise the code's reduced total |
| OrderModels.RecomputeIdempotent | order/models.py:77-81 | recomputing the derived fields twice gives the same row as once |
| OrderModels.PercentCodeChargesThePercentage | order/models.py:70-81 | with a valid percent code, `discount_amount` is the discounted total, so the final price is that percentage of the total plus shipping |
| OrderModels.TenPercentOfHundredStoresNinety | order/models.py:70-75 | 10% off a total of 100 stores 90 in `discount_amount` |
| OrderModels.TwoOfAHundredCostTwoHundredFive | order/models.py:127-129 | two items of price 100 and weight 2 weigh 4, ship for 5 and cost 205 in all |
| OrderModels.OrderDb.Insert | order/models.py:83-91 | a new order is appended as given, without recomputing its derived fields |
| OrderModels.OrderDb.ApplyDiscount | order/models.py:70-75 | only the order's `discount_amount` changes, to the code's `apply_discount` of the total, or 0 |
| OrderModels.OrderDb.UpdateFinalPrice | order/models.py:77-81 | the order's row becomes its recomputed row |
| OrderModels.OrderDb.Save | order/models.py:83-91 | an existing order is written and then recomputed |
| OrderModels.OrderDb.InsertItem | order/models.py:121-125 | the item is stored under the next id with line total `quantity × price` |
| OrderModels.OrderDb.DeleteItem | order/api/views.py:67 | exactly the given item row is removed |
| OrderSerializers.ColourMatches | order/api/serializers.py:40 | lists exactly the ids of the product's colours with the given name |
| OrderSerializers.ValueMatches | order/api/serializers.py:48 | lists exactly the ids of the feature values with the given feature name and value |
| OrderSerializers.Get | order/api/serializers.py:39-42 | succeeds exactly when there is one match and returns it; no match gives the missing-row error, several give `MultipleMatches` |
| OrderSerializers.ResolveFeatures | order/api/serializers.py:45-51 | on success gives one feature value per selected pair; a failure is a missing feature value or several matches |
| OrderSerializers.ResolvedIdsMatch | order/api/serializers.py:45-51 | each resolved id is the only feature value matching its pair |
| OrderSerializers.ResolvePrefixFailure | order/api/serializers.py:46-51 | a failure on a prefix of the pairs is the failure of the whole |
| OrderSerializers.ResolveFailsAtFirstBadPair | order/api/serializers.py:45-51 | a failure names the first pair that does not resolve, after every earlier pair resolved |
| OrderSerializers.OfProductColour | order/api/serializers.py:54 | keeps exactly the stock rows of the product and colour |
| OrderSerializers.WithValue | order/api/serializers.py:56 | keeps exactly the rows linked to the feature value |
| OrderSerializers.Narrow | order/api/serializers.py:54-56 | narrowing by feature values never adds candidate rows |
| OrderSerializers.NarrowMembers | order/api/serializers.py:54-56 | after narrowing, exactly the rows linked to every resolved feature value remain |
| OrderSerializers.AtMostOneCandidate | product/models.py:222 | with one stock row per (product, colour), at most one row is a candidate |
| OrderSerializers.Validate | order/api/serializers.py:20-65 | the field checks and the loop-by-loop validation decide exactly what `ValidateCartAdd` decides |
| OrderSerializers.EarlyRejections | order/api/serializers.py:20-51 | quantity below 1, a blank colour, a blank feature value, an unknown product, an unknown colour and an unresolved feature are refused in that order |
| OrderSerializers.AcceptedMeansStocked | order/api/serializers.py:54-65 | an accepted request is returned unchanged and has a stock row of its product and colour, linked to every selected value, with enough stock |
| OrderSerializers.StockCheckUsesTheOnlyCandidate | order/api/serializers.py:58-65 | when a row qualifies, "only N available" comes exactly when its stock N is below the quantity, and acceptance otherwise |
| OrderSerializers.NoQualifyingRowMeansNoStock | order/api/serializers.py:54-60 | when no row qualifies the request is refused with "no stock" |
| OrderSerializers.ValidateCartAdd | order/api/serializers.py:20-65 | an accepted request comes back unchanged with its fields valid and a known product; quantity below 1, a blank colour, a blank feature value and an unknown product are each refused exactly in their case, in field order; "only N available" has N below the quantity |
| OrderSerializers.ValidateDiscountCode | order/api/serializers.py:71-80 | a blank code gives no code; a missing or inactive code is invalid; an active but not valid code is expired or overused; otherwise the stored valid code |
| OrderSerializers.CheckoutUpdate | order/api/serializers.py:111-124 | a code gets exactly one more use and stays within `max_uses`; no code changes no count; the order is recomputed paid and processing |
| OrderSerializers.LastUseGivesNoDiscount | order/api/serializers.py:114-121 | redeeming a code's last use leaves `discount_amount` at 0 |
| OrderViews.UnpaidOrder | order/api/views.py:52 | gives the caller's newest unpaid order, or nothing when the caller has none |
| OrderViews.TheOnlyCart | order/api/views.py:24 | with one cart per user, any unpaid order of the caller is the one selected |
| OrderViews.NoItemsNoTotal | order/api/views.py:27-28 | an order with no items sums to 0 |
| OrderViews.GetOrCreateCart | order/api/views.py:24-28 | reuses the caller's cart or appends a fresh cart with total 0; the result is then the caller's cart |
| OrderViews.CartItems | order/api/views.py:51-53 | lists exactly the items of the caller's cart, nothing without one |
| OrderViews.ItemsOf | order/api/views.py:53 | keeps exactly the items of the given order |
| OrderViews.AddToCart | order/api/views.py:15-44 | a refused request changes nothing; an accepted one adds the item to the caller's cart as `CartGained` describes and advances the next item id by one |
| OrderViews.StoreCartItem | order/api/views.py:24-42 | the cart gains an item priced at the final price now, its total grows by exactly `quantity × price`, other orders are unchanged, and the next item id advances by one |
| OrderViews.AddKeepsConsistent | order/api/views.py:31-42 | storing an item and adding its line total to its order keeps every total equal to its items' sum |
| OrderViews.RemoveKeepsConsistent | order/api/views.py:65-68 | deleting an item and taking its line total off its order keeps every total equal to its items' sum |
| OrderViews.FindItem | order/api/views.py:61 | finds the position of the item with the id, or reports there is none |
| OrderViews.DeleteCartItem | order/api/views.py:60-70 | 404 for an unknown item; 403 and no change for another user's or a paid order; otherwise the item goes and the total drops by its line total |
| OrderViews.AddThenRemove | order/api/views.py:41-70 | adding an item and deleting it restores the items and every order's total |
| OrderViews.CheckoutSummary | order/api/views.py:76-82 | 404 exactly when the caller has no unpaid order, else the caller's newest unpaid order: no later order is an unpaid order of the caller |
| OrderViews.CheckoutPost | order/api/views.py:84-93 | 404 exactly when the caller has no cart; a bad code changes nothing; otherwise the checkout update on the cart |
| OrderViews.ConfirmReceipt | order/api/views.py:111-118 | 404 for another user's order; 400 and no change when paid; otherwise saved paid with status and code unchanged |
| OrderViews.PaidOrders | order/api/views.py:100-101 | lists exactly the caller's paid orders, newest first |
| OrderViews.LatestPaidOrder | order/api/views.py:124-132 | gives a paid order of the caller, or 404 |
| OrderViews.LatestIsHeadOfList | order/api/views.py:121-132 | the latest order is the head of the order list, and 404 exactly when the list is empty |
| AccountModels.SuperuserExtras | account/models.py:22-25 | `is_staff` and `is_superuser` default to true and keep supplied values; nothing else changes |
| AccountModels.NewUser | account/models.py:13-20 | the row carries the given email, password, phone and names; it is active unless `is_active=False` was passed, staff or superuser only when passed as true |
| AccountModels.ValidPhoneIff | account/models.py:32-35 | a phone number is valid exactly when it is "09" followed by nine digits |
| AccountModels.PhoneTrailingNewline | account/models.py:32-35 | the pattern lets a trailing newline through and the length limit refuses it |
| AccountModels.ValidPostalCodeIff | account/models.py:68-71 | a postal code is valid exactly when it is ten digits |
| AccountModels.PostalCodeExamples | account/tests.py:69-80 | "1234567890" is valid and "12345" is not |
| AccountModels.ClearDefaults | account/models.py:92 | every address of the user loses its default flag, all other rows are unchanged |
| AccountModels.AccountDb.CreateUser | account/models.py:13-20 | an empty email is refused; a taken email or phone is refused by the unique constraints; otherwise the user is stored with the defaults |
| AccountModels.AccountDb.CreateSuperuser | account/models.py:22-25 | refuses exactly as `create_user` does; the stored row is `create_user`'s row with `is_staff` and `is_superuser` true unless supplied |
| AccountModels.AccountDb.SaveAddress | account/models.py:89-93 | a default address clears the user's other defaults first; then the row is inserted or written; one default per user is kept |
| AccountModels.SaveAddressTouchesOnlyOwner | account/models.py:91-93 | other users' addresses are unchanged, and nothing else changes for a non-default save |
| AccountModels.SavedDefaultIsTheOnlyOne | account/models.py:89-93 | after saving a default address it is its user's only default |
| AccountModels.SaveKeepsAddressesValid | account/models.py:89-93 | saving an address of a stored user keeps every address owned by a stored user and at most one default per user |
| AccountSerializers.CheckSignUp | account/api/serializers.py:11-22 | accepts exactly a new non-blank email, a blank or valid unheld phone, and a non-blank password; otherwise names the first failing field check in field order: blank email, taken email, invalid phone, taken phone, blank password |
| AccountSerializers.SignUp | account/api/serializers.py:24-47 | the new user is inactive, not staff, not superuser; the OTP is stored under the email; a refusal changes nothing |
| AccountSerializers.VerifyOtp | account/api/serializers.py:54-71 | no stored code, a wrong code or an unknown user fail, changing nothing; success activates the user and deletes the code |
| AccountSerializers.VerifyTwice | account/api/serializers.py:68-71 | repeating a successful verification fails as expired |
| AccountSerializers.Login | account/api/serializers.py:78-87 | succeeds exactly when `authenticate` returned an active user; no user is "invalid credentials", an inactive one "not verified" |
| AccountSerializers.DefaultAuthenticate | account/api/serializers.py:79 | Django's default backend returns the stored user exactly when the password matches and the account is active |
| AccountSerializers.DefaultBackendNeverNotVerified | account/api/serializers.py:78-87 | with the default backend login never answers "not verified", and succeeds exactly for the right password of an active account |
| AccountSerializers.SignedUpUserCannotLogIn | account/api/serializers.py:24-31 | a freshly signed-up, inactive user cannot log in: the default backend gives "invalid credentials", a backend returning the user gives "not verified" |
| AccountSerializers.ClearDefaultsTwice | account/api/serializers.py:98-100 | clearing a user's defaults twice is clearing them once |
| AccountSerializers.CreateAddress | account/api/serializers.py:95-100 | invalid fields change nothing; a default address first clears the caller's defaults; other users' rows are unchanged |
| AccountSerializers.ActiveAddresses | account/api/serializers.py:112-114 | lists exactly the user's addresses that are not deleted |
| AccountSerializers.HasAddress | account/api/serializers.py:116-117 | true exactly when the user has an address that is not deleted |
| AccountSerializers.HasAddressIffListed | account/api/serializers.py:112-117 | `has_address` is true exactly when `addresses` is non-empty |
| AccountSerializers.ConfirmationUpdate | account/api/serializers.py:119-124 | only a non-empty phone number is written; one held by another user is refused; otherwise nothing changes |

## Left out

- Decimal quantisation to two places on write. Arithmetic is exact.
- `min_order_price` on discount codes. The shop never reads it.
- The order's address, time stamps and soft-delete flag. No modelled rule reads them.
- Category ordering by name. Children are listed in table order.
- Image file validators and the import-time `uuid` default of `DiscountCode.code`.
- HTTP routing, response bodies, authentication tokens and the admin classes.
- Concurrency: the `get_or_create` race, and concurrent `used_count` increments.
- Random OTP generation, which is a parameter here. Also left out: the mail that carries the code, the Redis expiry time (a stored code is present or absent), `normalize_email`, and password hashing.
- `authenticate` with a custom backend is not part of this model. Login takes its answer as a parameter, and `AccountSerializers.DefaultAuthenticate` models Django's default backend, comparing passwords as stored.
- Email format validation, Unicode digits in `\d`, DRF whitespace trimming, and the name length limits.
- DRF reports every failing field at once. The model returns the first failing check.
- `AccountSerializers.CheckSignUp` reports a taken email as `EmailExists`. The field's own uniqueness validator refuses it first, with DRF's standard message, so the serializer's `validate_email` is never reached for such an email.
- `OrderViews.AddToCart` and the other views model `get_or_create`, `.first()` and `.get()` on the one-cart-per-user invariant. Without it, `get_or_create` would raise on two unpaid orders.
- `OrderModels.OrderDb.InsertItem` does not model the in-memory `update_final_price` that `OrderItem.save` runs on its order. It changes only the Python object, and the view's following `order.save()` recomputes the same fields.
- `Catalog.UniqueSlug` does not apply `max_length=255` to the generated `base-n` slug. A base near that length could yield a slug the database refuses.
- `AccountSerializers.SignUp` takes any OTP string. The serializer draws a six-digit number between 100000 and 999999.
- `Catalog.CatalogDb.SaveCode` and `OrderModels.DiscountAmount`: orders refer to a discount code by its code string, not by the row's primary key. Renaming a code therefore detaches the orders that used it, where the foreign key keeps them attached and `Order.save` would still apply the renamed code. None of the modelled shop operations renames a code; only an admin edit does.
