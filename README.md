# Admin dashboard state model

This project is a Dafny model of the state logic of a React and Redux admin dashboard. The dashboard manages tenants, users and three kinds of laboratory device: cameras, microscopes and sensors.

The model covers:

- **Redux slices.** `tenants`, `users`, `devices`, `auth` and `ui` become classes. Each reducer is a method that reassigns the slice's fields.
- **Page-local state.** The tenant, user, sensor, microscope, camera and legacy camera pages become classes. Each field holds one piece of `useState` state, and each handler is a method.
- **Auth context provider.** It is a class that talks to an explicit `Storage` object, which stands in for `localStorage`.
- **Layout toast.** It is a class.

Each handler's effect on a list is given by a pure function of the old list, and lemmas state what those functions promise:

- tenant–user membership stays consistent;
- delete undoes create;
- a form round-trips through its edit dialog;
- the statistics agree with the device list;
- the dashboard's recent list holds the newest devices.

Form validation, which is zod through `zodResolver`, is folded into each submit method. The method returns `accepted` and changes nothing when the form is rejected. Zod's `.email()` and `.ip()` checks are passed in as predicates.

Files and modules:

- `wrappers.dfy`: `Option`.
- `seqs.dfy`: `filter`, `findIndex`, conditional `map`.
- `models.dfy`: `User`, `Tenant`, seed lists.
- `tenant_slice.dfy`, `user_slice.dfy`: the two slices.
- `membership.dfy`: the `Consistent` relation between tenants and users, and the slice-pair lemmas.
- `tenant_management.dfy`, `user_management.dfy`: the two pages.
- `devices.dfy`: device records, status names, chip colours.
- `device_slice.dfy`, `dashboard.dfy`: the device slice and the dashboard.
- `sensor_management.dfy`, `microscope_management.dfy`, `camera_management.dfy`: the three device pages.
- `legacy_camera.dfy`: `pages/CameraManagement.tsx`.
- `auth.dfy`, `auth_slice.dfy`, `auth_context.dfy`: profile merges, the auth slice and the auth context.
- `ui_slice.dfy`, `toast.dfy`: menu anchors and the toast.

Deleting a user or a tenant through the slices does not cascade. Neither `deleteUser` (`src/store/slices/userSlice.ts:51-53`) nor the slice's `deleteTenant` (`src/store/slices/tenantSlice.ts:48-52`) touches the other list. `Membership.DeleteUserDoesNotCascade` and `Membership.SliceDeleteTenantDoesNotCascade` show that on the seed data this leaves dangling references. The tenant page's own delete does cascade into its local users (`TenantManagement.DeleteTenantCascade`). The page handlers follow the code as written, including the two defects listed under "## Findings"; the corrected behaviour is stated and proved beside them.

## Model

| member | source | states |
|---|---|---|
| Seqs.Filter | src/store/slices/tenantSlice.ts:48-52 | `filter` never grows the list |
| Seqs.FilterContents | src/store/slices/tenantSlice.ts:48-52 | `filter` keeps exactly the elements satisfying the predicate, each as often as in the input |
| Seqs.FilterAppend | src/store/slices/deviceSlice.ts:200-216 | filtering distributes over concatenation, so kept elements stay in their original order |
| Seqs.FirstIndex | src/store/slices/tenantSlice.ts:41-46 | `findIndex` returns the first index satisfying the predicate, and none exactly when no element does |
| Seqs.MapWhere | src/pages/devices/SensorManagement.tsx:224-243 | a conditional `map` rewrites the matching elements in place and keeps every other one |
| Models.Without | src/store/slices/tenantSlice.ts:69-83 | filtering an id out of a membership list drops every occurrence of it and keeps the rest in order |
| Models.WithoutAppend | src/store/slices/userSlice.ts:68-80 | removing an id from a concatenation removes it from each part |
| Models.TenantsWithout | src/store/slices/tenantSlice.ts:48-52 | `deleteTenant` keeps exactly the tenants with another id, with their multiplicities |
| Models.UsersWithout | src/store/slices/userSlice.ts:51-53 | `deleteUser` keeps exactly the users with another id, with their multiplicities |
| TenantSlice.IndexOf | src/store/slices/tenantSlice.ts:41-43 | the index found is the first tenant with that id, and none exactly when no tenant has it |
| TenantSlice.Updated | src/store/slices/tenantSlice.ts:40-47 | `updateTenant` keeps the length, is a no-op for an unknown id, and otherwise installs the payload and introduces nothing else |
| TenantSlice.WithUserAdded | src/store/slices/tenantSlice.ts:53-68 | adding a member keeps every tenant's id and name and is a no-op for an unknown tenant |
| TenantSlice.WithUserRemoved | src/store/slices/tenantSlice.ts:69-83 | removing a member keeps every tenant's id and name and is a no-op for an unknown tenant |
| TenantSlice.UpdateReplacesFirstMatch | src/store/slices/tenantSlice.ts:40-47 | `updateTenant` replaces exactly the first tenant whose id matches the payload |
| TenantSlice.AddUserEffect | src/store/slices/tenantSlice.ts:53-68 | after `addUserToTenant` the tenant lists the user, the user is appended only if it was absent, and no other tenant changes |
| TenantSlice.AddUserKeepsMembersDistinct | src/store/slices/tenantSlice.ts:62-67 | the `includes` guard means no tenant ever lists a member twice |
| TenantSlice.AddUserIdempotent | src/store/slices/tenantSlice.ts:53-68 | adding the same member twice is the same as adding it once |
| TenantSlice.RemoveUserEffect | src/store/slices/tenantSlice.ts:69-83 | after `removeUserFromTenant` the tenant lists the user nowhere, keeps every other member, and no other tenant changes |
| TenantSlice.RemoveUndoesAdd | src/store/slices/tenantSlice.ts:53-83 | removing a member just added, who was not listed before, restores the list |
| TenantSlice.IndexOfAgrees | src/store/slices/tenantSlice.ts:53-83 | the membership reducers never move the index `findIndex` finds for a tenant |
| TenantSlice.TenantState.constructor | src/store/slices/tenantSlice.ts:9-28 | the slice starts with the three seed tenants and is not loading |
| TenantSlice.TenantState.SetLoading | src/store/slices/tenantSlice.ts:34-36 | sets the flag and keeps the list |
| TenantSlice.TenantState.AddTenant | src/store/slices/tenantSlice.ts:37-39 | appends the payload |
| TenantSlice.TenantState.UpdateTenant | src/store/slices/tenantSlice.ts:40-47 | the new list is `Updated` of the old one |
| TenantSlice.TenantState.DeleteTenant | src/store/slices/tenantSlice.ts:48-52 | the new list is the old one without that id |
| TenantSlice.TenantState.AddUserToTenant | src/store/slices/tenantSlice.ts:53-68 | the new list is `WithUserAdded` of the old one, and duplicate-free member lists stay duplicate-free |
| TenantSlice.TenantState.RemoveUserFromTenant | src/store/slices/tenantSlice.ts:69-83 | the new list is `WithUserRemoved` of the old one |
| UserSlice.IndexOf | src/store/slices/userSlice.ts:44-46 | the index found is the first user with that id, and none exactly when no user has it |
| UserSlice.Updated | src/store/slices/userSlice.ts:43-50 | `updateUser` keeps the length, is a no-op for an unknown id, and otherwise installs the payload and introduces nothing else |
| UserSlice.WithTenantAdded | src/store/slices/userSlice.ts:54-67 | adding a tenant to a user keeps every user's id, name and email and is a no-op for an unknown user |
| UserSlice.WithTenantRemoved | src/store/slices/userSlice.ts:68-80 | removing a tenant from a user keeps every user's id, name and email and is a no-op for an unknown user |
| UserSlice.UpdateReplacesFirstMatch | src/store/slices/userSlice.ts:43-50 | `updateUser` replaces exactly the first user whose id matches the payload |
| UserSlice.AddTenantEffect | src/store/slices/userSlice.ts:54-67 | after `addTenantToUser` the user lists the tenant, appended only if absent, and no other user changes |
| UserSlice.AddTenantKeepsTenantsDistinct | src/store/slices/userSlice.ts:61-66 | the `includes` guard means no user ever lists a tenant twice |
| UserSlice.AddTenantIdempotent | src/store/slices/userSlice.ts:54-67 | adding the same tenant twice is the same as adding it once |
| UserSlice.RemoveTenantEffect | src/store/slices/userSlice.ts:68-80 | after `removeTenantFromUser` the user lists the tenant nowhere, keeps every other tenant, and no other user changes |
| UserSlice.RemoveUndoesAdd | src/store/slices/userSlice.ts:54-80 | removing a tenant just added, which was not listed before, restores the list |
| UserSlice.IndexOfAgrees | src/store/slices/userSlice.ts:54-80 | the membership reducers never move the index `findIndex` finds for a user |
| UserSlice.UserState.constructor | src/store/slices/userSlice.ts:9-31 | the slice starts with the three seed users and is not loading |
| UserSlice.UserState.SetLoading | src/store/slices/userSlice.ts:37-39 | sets the flag and keeps the list |
| UserSlice.UserState.AddUser | src/store/slices/userSlice.ts:40-42 | appends the payload |
| UserSlice.UserState.UpdateUser | src/store/slices/userSlice.ts:43-50 | the new list is `Updated` of the old one |
| UserSlice.UserState.DeleteUser | src/store/slices/userSlice.ts:51-53 | the new list is the old one without that id |
| UserSlice.UserState.AddTenantToUser | src/store/slices/userSlice.ts:54-67 | the new list is `WithTenantAdded` of the old one, and duplicate-free tenant lists stay duplicate-free |
| UserSlice.UserState.RemoveTenantFromUser | src/store/slices/userSlice.ts:68-80 | the new list is `WithTenantRemoved` of the old one |
| Membership.ConsistentFromIndices | src/types/models.ts:1-12 | position-wise agreement of `userIds` and `tenantIds`, plus existence of every listed id, is the consistency relation |
| Membership.SameIds | src/types/models.ts:1-12 | lists with the same ids position by position have the same id sets |
| Membership.SeedConsistent | src/store/slices/tenantSlice.ts:9-28 | the seed tenants and seed users agree on who belongs to whom |
| Membership.SliceAssignPreservesConsistency | src/store/slices/tenantSlice.ts:53-68 | dispatching `addUserToTenant` together with `addTenantToUser` keeps the two lists consistent when ids are unique |
| Membership.SliceRemovePreservesConsistency | src/store/slices/userSlice.ts:68-80 | dispatching the two removal reducers together keeps the two lists consistent when ids are unique |
| Membership.SliceDeleteTenantDoesNotCascade | src/store/slices/tenantSlice.ts:48-52 | deleting a seed tenant through the slice leaves users referring to it |
| Membership.DeleteUserDoesNotCascade | src/store/slices/userSlice.ts:51-53 | deleting a seed user through the slice leaves tenants referring to them |
| TenantManagement.CreateTenant | src/pages/TenantManagement.tsx:166-179 | creating a tenant appends a tenant with no members and leaves every other tenant and all users alone |
| TenantManagement.RenameTenant | src/pages/TenantManagement.tsx:189-204 | editing gives every matching tenant the new name, keeps every id and member list, and leaves other tenants and all users alone |
| TenantManagement.DeleteTenantCascade | src/pages/TenantManagement.tsx:211-230 | deleting a tenant removes it and strips its id from every user, keeping each user's id, name and email |
| TenantManagement.AssignUser | src/pages/TenantManagement.tsx:238-274 | assigning is rejected exactly when the selected tenant already lists the user; otherwise both sides gain the link and nothing else changes |
| TenantManagement.RemoveUserEffect | src/pages/TenantManagement.tsx:286-305 | removing drops the link on both sides and keeps every id, name, email and other link |
| TenantManagement.AvailableUsers | src/pages/TenantManagement.tsx:317-319 | the users offered are exactly those not already in the tenant, with their multiplicities |
| TenantManagement.AvailableUsersKeepsOrder | src/pages/TenantManagement.tsx:600-605 | the offered users appear in the order of the user list |
| TenantManagement.OfferedUserExists | src/pages/TenantManagement.tsx:600-605 | every offered id belongs to an existing user who is not yet a member |
| TenantManagement.CreateKeepsConsistency | src/pages/TenantManagement.tsx:166-179 | creating a tenant with a fresh id keeps tenants and users consistent |
| TenantManagement.RenameKeepsConsistency | src/pages/TenantManagement.tsx:189-204 | renaming keeps tenants and users consistent |
| TenantManagement.DeleteKeepsConsistency | src/pages/TenantManagement.tsx:211-230 | the cascading delete keeps tenants and users consistent and leaves no user listing the deleted tenant |
| TenantManagement.DeleteKeepsLinks | src/pages/TenantManagement.tsx:215-224 | after the cascade, every surviving tenant and user still agree on membership |
| TenantManagement.DeleteKeepsUserRefs | src/pages/TenantManagement.tsx:215-224 | after the cascade, every id a tenant lists is still a user |
| TenantManagement.DeleteKeepsTenantRefs | src/pages/TenantManagement.tsx:215-224 | after the cascade, every id a user lists is still a tenant |
| TenantManagement.AssignKeepsConsistency | src/pages/TenantManagement.tsx:248-261 | an accepted assignment of an existing user to an existing tenant keeps tenants and users consistent |
| TenantManagement.AssignKeepsLinks | src/pages/TenantManagement.tsx:248-261 | after an accepted assignment every tenant and user still agree on membership |
| TenantManagement.AssignKeepsRefs | src/pages/TenantManagement.tsx:248-261 | after an accepted assignment of existing ids every listed id still exists |
| TenantManagement.AssignTwiceRejected | src/pages/TenantManagement.tsx:242-245 | assigning the same user to the same tenant again is rejected |
| TenantManagement.RemoveKeepsConsistency | src/pages/TenantManagement.tsx:286-305 | removing a user from a tenant keeps tenants and users consistent |
| TenantManagement.RemovedUserAvailableAgain | src/pages/TenantManagement.tsx:282-319 | a user removed from a tenant is offered for that tenant again |
| TenantManagement.EmptySelectionBreaksConsistency | src/pages/TenantManagement.tsx:49-53 | the assign form accepts an empty selection, and submitting it links the seed tenant to a user that does not exist |
| TenantManagement.AcceptedSelectionKeepsConsistency | src/pages/TenantManagement.tsx:238-261 | once the empty selection is rejected, every accepted submission of an offered user keeps tenants and users consistent |
| TenantManagement.TenantManagementPage.constructor | src/pages/TenantManagement.tsx:80-117 | the page starts on the seed tenants and users, consistent, with nothing selected and every dialog closed |
| TenantManagement.TenantManagementPage.OnCreateSubmit | src/pages/TenantManagement.tsx:166-179 | a name of at least two characters is accepted and creates the tenant, a shorter one changes nothing, and a fresh id keeps a consistent page consistent; it runs in any state; the selection and the dialog flags are kept |
| TenantManagement.TenantManagementPage.OpenEditDialog | src/pages/TenantManagement.tsx:181-187 | selects the tenant and opens the edit dialog without changing the lists, in any state, and keeps a consistent page consistent; every other dialog flag is kept |
| TenantManagement.TenantManagementPage.OnEditSubmit | src/pages/TenantManagement.tsx:189-204 | a name of 2 characters or more gives every tenant with the selected id that name (through `RenameTenant`), closes the dialog and clears the selection; an invalid name or no selection changes nothing, the selection and every dialog flag included; it runs in any state, and a consistent page stays consistent |
| TenantManagement.TenantManagementPage.OpenDeleteDialog | src/pages/TenantManagement.tsx:206-209 | selects the tenant and opens the delete dialog without changing the lists, in any state, and keeps a consistent page consistent; every other dialog flag is kept |
| TenantManagement.TenantManagementPage.DeleteTenant | src/pages/TenantManagement.tsx:211-230 | deletes the selected tenant with the cascade, clears the selection, and a consistent page stays consistent; it runs in any state; with nothing selected nothing changes, the selection and every dialog flag included |
| TenantManagement.TenantManagementPage.OpenAssignUserDialog | src/pages/TenantManagement.tsx:232-236 | selects the tenant and opens the assign dialog without changing the lists, in any state, and keeps a consistent page consistent; every other dialog flag is kept |
| TenantManagement.TenantManagementPage.OnAssignUserSubmit | src/pages/TenantManagement.tsx:238-274 | with the schema as written every selection is submitted: the outcome is no tenant, rejected as already assigned, or accepted, each exactly in its own case; only an accepted one changes the lists, and a consistent page stays consistent whenever a user was chosen (after an empty selection every handler still runs on the inconsistent state); only an accepted one closes the dialog, and every other flag and both selections are kept |
| TenantManagement.TenantManagementPage.OpenRemoveUserDialog | src/pages/TenantManagement.tsx:276-280 | selects the tenant and the user and opens the remove dialog without changing the lists, in any state, and keeps a consistent page consistent; every other dialog flag is kept |
| TenantManagement.TenantManagementPage.RemoveUserFromTenant | src/pages/TenantManagement.tsx:282-314 | removes the link on both sides, clears the selection, and a consistent page stays consistent; it runs in any state; the selected tenant stays, and without both selections nothing changes, the selections and every dialog flag included |
| UserManagement.CreateUser | src/pages/UserManagement.tsx:122-135 | creating appends a user with no tenants and keeps every existing user |
| UserManagement.EditUser | src/pages/UserManagement.tsx:146-161 | editing changes only the name and email of the matching users, keeping ids and tenant lists |
| UserManagement.DeleteUndoesCreate | src/pages/UserManagement.tsx:122-177 | deleting a user just created with a fresh id restores the list |
| UserManagement.EditWithOwnValuesIsIdentity | src/pages/UserManagement.tsx:137-161 | submitting the edit dialog unchanged leaves the list as it was when ids are unique |
| UserManagement.EditIdempotent | src/pages/UserManagement.tsx:146-161 | submitting the same edit twice is the same as once |
| UserManagement.CreateKeepsConsistency | src/pages/UserManagement.tsx:122-135 | a new user with a fresh id keeps tenants and users consistent |
| UserManagement.EditKeepsConsistency | src/pages/UserManagement.tsx:146-161 | editing a user's name and email keeps tenants and users consistent |
| UserManagement.UserManagementPage.constructor | src/pages/UserManagement.tsx:67-86 | the page starts on the seed users, every name valid, nothing selected |
| UserManagement.UserManagementPage.OnCreateSubmit | src/pages/UserManagement.tsx:122-135 | a valid form creates the user, an invalid one changes nothing, and every name stays at least two characters; the selection and the dialog flags are kept |
| UserManagement.UserManagementPage.OpenEditDialog | src/pages/UserManagement.tsx:137-144 | selects the user and opens the edit dialog without changing the list; every other dialog flag is kept |
| UserManagement.UserManagementPage.OnEditSubmit | src/pages/UserManagement.tsx:146-161 | a valid form edits the selected user and closes the dialog, and every name stays valid; an invalid form or no selection changes nothing, the selection and both dialog flags included |
| UserManagement.UserManagementPage.OpenDeleteDialog | src/pages/UserManagement.tsx:163-166 | selects the user and opens the delete dialog without changing the list; every other dialog flag is kept |
| UserManagement.UserManagementPage.DeleteUser | src/pages/UserManagement.tsx:168-177 | removes the selected user and clears the selection, and every name stays valid; with nothing selected nothing changes, the selection and both dialog flags included |
| Devices.ParseStatus | src/types/devices.ts:2-8 | a parsed status prints back as the same string |
| Devices.ParseStatusName | src/types/devices.ts:2-8 | every status parses back from its name |
| Devices.ParseSensorType | src/types/devices.ts:28-43 | a parsed sensor type prints back as the same string, and an unparsed string names no type |
| Devices.ParseSensorTypeName | src/types/devices.ts:28-43 | every sensor type parses back from its name |
| Devices.StatusChipColor | src/pages/devices/DevicesDashboard.tsx:57-68 | online is green, offline red, maintenance amber, and any other string the default colour, each exactly; the sensor, microscope and camera pages repeat the same mapping (`SensorManagement.tsx:261-272`, `MicroscopeManagement.tsx:238-249`, `devices/CameraManagement.tsx:223-234`) |
| Devices.StatusColorsDistinct | src/pages/devices/DevicesDashboard.tsx:57-68 | each real status gets a non-default colour of its own |
| DeviceSlice.CountStatus | src/store/slices/deviceSlice.ts:105-118 | a status count never exceeds the number of devices |
| DeviceSlice.CountKind | src/store/slices/deviceSlice.ts:105-118 | a kind count never exceeds the number of devices |
| DeviceSlice.CountsAreFilterLengths | src/store/slices/deviceSlice.ts:105-118 | each count is the length of the `filter` the reducer takes |
| DeviceSlice.CountAppend | src/store/slices/deviceSlice.ts:165-179 | counts add up over concatenation |
| DeviceSlice.StatusCountsPartition | src/store/slices/deviceSlice.ts:108-112 | online, offline and maintenance counts sum to the total |
| DeviceSlice.KindCountsPartition | src/store/slices/deviceSlice.ts:113-116 | camera, microscope and sensor counts sum to the total |
| DeviceSlice.ComputeStats | src/store/slices/deviceSlice.ts:105-118 | the statistics count every device once by status and once by kind |
| DeviceSlice.StatsOfAppend | src/store/slices/deviceSlice.ts:165-179 | the statistics of a list with one more device are the old ones with that device tallied in |
| DeviceSlice.Replaced | src/store/slices/deviceSlice.ts:180-199 | `updateDevice` keeps the length, is a no-op for an unknown id, and introduces nothing but the payload |
| DeviceSlice.ReplacesFirstMatch | src/store/slices/deviceSlice.ts:180-199 | `updateDevice` replaces exactly the first device with the payload's id |
| DeviceSlice.DevicesWithout | src/store/slices/deviceSlice.ts:200-216 | `deleteDevice` keeps exactly the devices with another id, with their multiplicities |
| DeviceSlice.SeedStatsAgree | src/store/slices/deviceSlice.ts:9-96 | the initial statistics are those of the initial devices |
| DeviceSlice.DeviceStore.constructor | src/store/slices/deviceSlice.ts:9-96 | the store starts on the seed devices, their statistics, not loading |
| DeviceSlice.DeviceStore.SetLoading | src/store/slices/deviceSlice.ts:102-104 | sets the flag only |
| DeviceSlice.DeviceStore.FetchDevices | src/store/slices/deviceSlice.ts:105-118 | the statistics become those of the device list |
| DeviceSlice.DeviceStore.AddDevice | src/store/slices/deviceSlice.ts:165-179 | appends the device, the statistics still agree with the list, and they are the old ones with the device tallied in |
| DeviceSlice.DeviceStore.UpdateDevice | src/store/slices/deviceSlice.ts:180-199 | replaces the first matching device and the statistics still agree with the list |
| DeviceSlice.DeviceStore.DeleteDevice | src/store/slices/deviceSlice.ts:200-216 | removes the devices with that id and the statistics still agree with the list |
| Dashboard.Insert | src/pages/devices/DevicesDashboard.tsx:45-50 | inserting into a newest-first list keeps it newest-first and adds exactly that device |
| Dashboard.SortNewestFirst | src/pages/devices/DevicesDashboard.tsx:45-50 | the sort is a newest-first permutation of the devices |
| Dashboard.RecentDevices | src/pages/devices/DevicesDashboard.tsx:45-50 | the recent list has at most three devices, newest first, drawn from the list, and no left-out device is newer than the last one shown |
| Dashboard.PrefixOfNewestFirst | src/pages/devices/DevicesDashboard.tsx:48-49 | a prefix of a newest-first list is newest-first, and nothing after it is newer than its last element |
| Dashboard.NavigateToDeviceType | src/pages/devices/DevicesDashboard.tsx:88-102 | each device kind navigates to its page, and any other string navigates nowhere |
| Dashboard.RoutesDistinct | src/pages/devices/DevicesDashboard.tsx:88-102 | different device kinds go to different pages |
| SensorManagement.Merge | src/pages/devices/SensorManagement.tsx:224-243 | editing keeps the sensor's id, takes every form field, and stamps the time |
| SensorManagement.FromForm | src/pages/devices/SensorManagement.tsx:192-206 | a created sensor carries the form's fields, the new id and the time |
| SensorManagement.FormAcceptedIffWellFormed | src/pages/devices/SensorManagement.tsx:45-69 | the form is accepted exactly when the sensor built from it meets the schema |
| SensorManagement.EditUnchangedRefreshesTime | src/pages/devices/SensorManagement.tsx:208-243 | opening the edit dialog and submitting it unchanged only refreshes the timestamp |
| SensorManagement.EditSensors | src/pages/devices/SensorManagement.tsx:224-243 | the matching sensors take the form and the time, the rest stay as they were |
| SensorManagement.DeleteSensor | src/pages/devices/SensorManagement.tsx:250-259 | deleting keeps exactly the sensors with another id |
| SensorManagement.DeleteUndoesCreate | src/pages/devices/SensorManagement.tsx:192-259 | deleting a sensor just created with a fresh id restores the list |
| SensorManagement.EditKeepsWellFormed | src/pages/devices/SensorManagement.tsx:224-243 | an accepted edit keeps every sensor within the schema |
| SensorManagement.BatteryColor | src/pages/devices/SensorManagement.tsx:274-279 | above 70 is green, above 30 amber, other non-zero levels red, and an absent or zero level the default colour, each exactly |
| SensorManagement.BatteryColorMonotone | src/pages/devices/SensorManagement.tsx:274-279 | a fuller battery never gets a worse colour |
| SensorManagement.SensorTypeLabel | src/pages/devices/SensorManagement.tsx:281-300 | known sensor types get their label, and any other string is shown as itself |
| SensorManagement.LabelsDistinct | src/pages/devices/SensorManagement.tsx:281-300 | different sensor types get different labels |
| SensorManagement.DefaultUnit | src/pages/devices/SensorManagement.tsx:302-319 | a default unit is offered exactly for the known types other than `other` |
| SensorManagement.DefaultUnitAccepted | src/pages/devices/SensorManagement.tsx:45-69 | the unit the field shows as its placeholder passes the unit rule when typed in, for every type but "other" |
| SensorManagement.SensorPage.constructor | src/pages/devices/SensorManagement.tsx:96-136 | the page starts on its seed sensors, all within the schema, with nothing selected |
| SensorManagement.SensorPage.OnCreateSubmit | src/pages/devices/SensorManagement.tsx:192-206 | a valid form appends the sensor, an invalid one changes nothing, and all sensors stay within the schema; the selection and the dialog flags are kept |
| SensorManagement.SensorPage.OpenEditDialog | src/pages/devices/SensorManagement.tsx:208-222 | selects the sensor and fills the form from it; every other dialog flag is kept |
| SensorManagement.SensorPage.OnEditSubmit | src/pages/devices/SensorManagement.tsx:224-243 | a valid form edits the selected sensor and closes the dialog, and all sensors stay within the schema; an invalid form or no selection changes nothing, the selection and both dialog flags included |
| SensorManagement.SensorPage.OpenDeleteDialog | src/pages/devices/SensorManagement.tsx:245-248 | selects the sensor and opens the delete dialog; every other dialog flag is kept |
| SensorManagement.SensorPage.DeleteSelected | src/pages/devices/SensorManagement.tsx:250-259 | removes the selected sensor and clears the selection; with nothing selected nothing changes, the selection and both dialog flags included |
| MicroscopeManagement.FormOf | src/pages/devices/MicroscopeManagement.tsx:183-195 | the edit form always holds a calibration date, the microscope's own when it has one |
| MicroscopeManagement.Merge | src/pages/devices/MicroscopeManagement.tsx:197-216 | editing keeps the microscope's id, takes every form field, and stamps the time |
| MicroscopeManagement.FromForm | src/pages/devices/MicroscopeManagement.tsx:167-181 | a created microscope carries the form's fields, the new id and the time |
| MicroscopeManagement.FormAcceptedIffWellFormed | src/pages/devices/MicroscopeManagement.tsx:41-57 | the form is accepted exactly when the microscope built from it meets the schema |
| MicroscopeManagement.EditUnchanged | src/pages/devices/MicroscopeManagement.tsx:183-216 | the edit form of a well-formed microscope is accepted, and submitting it unchanged fills in an empty calibration date and refreshes the time |
| MicroscopeManagement.EditMicroscopes | src/pages/devices/MicroscopeManagement.tsx:197-216 | the matching microscopes take the form and the time, the rest stay as they were |
| MicroscopeManagement.DeleteMicroscope | src/pages/devices/MicroscopeManagement.tsx:223-236 | deleting keeps exactly the microscopes with another id |
| MicroscopeManagement.DeleteUndoesCreate | src/pages/devices/MicroscopeManagement.tsx:167-236 | deleting a microscope just created with a fresh id restores the list |
| MicroscopeManagement.EditKeepsWellFormed | src/pages/devices/MicroscopeManagement.tsx:197-216 | an accepted edit keeps every microscope within the schema |
| MicroscopeManagement.MicroscopePage.constructor | src/pages/devices/MicroscopeManagement.tsx:84-120 | the page starts on its seed microscopes, all within the schema, with nothing selected |
| MicroscopeManagement.MicroscopePage.OnCreateSubmit | src/pages/devices/MicroscopeManagement.tsx:167-181 | a valid form appends the microscope, an invalid one changes nothing, and all stay within the schema; the selection and the dialog flags are kept |
| MicroscopeManagement.MicroscopePage.OpenEditDialog | src/pages/devices/MicroscopeManagement.tsx:183-195 | selects the microscope and fills the form from it; every other dialog flag is kept |
| MicroscopeManagement.MicroscopePage.OnEditSubmit | src/pages/devices/MicroscopeManagement.tsx:197-216 | a valid form edits the selected microscope and closes the dialog, and all stay within the schema; an invalid form or no selection changes nothing, the selection and both dialog flags included |
| MicroscopeManagement.MicroscopePage.OpenDeleteDialog | src/pages/devices/MicroscopeManagement.tsx:218-221 | selects the microscope and opens the delete dialog; every other dialog flag is kept |
| MicroscopeManagement.MicroscopePage.DeleteSelected | src/pages/devices/MicroscopeManagement.tsx:223-236 | removes the selected microscope and clears the selection; with nothing selected nothing changes, the selection and both dialog flags included |
| CameraManagement.EditFormAsWritten | src/pages/devices/CameraManagement.tsx:173-184 | the edit form as written turns an unset retention into 0 |
| CameraManagement.UnsetRetentionBlocksEdit | src/pages/devices/CameraManagement.tsx:50 | a camera without a retention period cannot be saved from its edit dialog as written, because 0 fails the schema's minimum of 1 |
| CameraManagement.EditForm | src/pages/devices/CameraManagement.tsx:173-184 | the corrected edit form carries the camera's own retention, set or unset |
| CameraManagement.EditFormsAgree | src/pages/devices/CameraManagement.tsx:173-184 | the form as written and the corrected form agree exactly for the cameras that have a retention |
| CameraManagement.Merge | src/pages/devices/CameraManagement.tsx:186-205 | editing keeps the camera's id, takes every form field, and stamps the time |
| CameraManagement.EditUnchanged | src/pages/devices/CameraManagement.tsx:173-205 | with the corrected form, a well-formed camera's edit dialog is accepted unchanged, and submitting it only fills in an empty resolution and refreshes the time |
| CameraManagement.FromForm | src/pages/devices/CameraManagement.tsx:157-171 | a created camera carries the form's fields, the new id and the time |
| CameraManagement.FormAcceptedIffWellFormed | src/pages/devices/CameraManagement.tsx:39-52 | the form is accepted exactly when the camera built from it meets the schema and has a valid IP address |
| CameraManagement.EditCameras | src/pages/devices/CameraManagement.tsx:186-205 | the matching cameras take the form and the time, the rest stay as they were |
| CameraManagement.DeleteCamera | src/pages/devices/CameraManagement.tsx:212-221 | deleting keeps exactly the cameras with another id |
| CameraManagement.DeleteUndoesCreate | src/pages/devices/CameraManagement.tsx:157-221 | deleting a camera just created with a fresh id restores the list |
| CameraManagement.EditKeepsWellFormed | src/pages/devices/CameraManagement.tsx:186-205 | an accepted edit keeps every camera within the schema |
| CameraManagement.CameraPage.constructor | src/pages/devices/CameraManagement.tsx:79-113 | the page starts on its seed cameras, all within the schema, with nothing selected |
| CameraManagement.CameraPage.OnCreateSubmit | src/pages/devices/CameraManagement.tsx:157-171 | a valid form appends the camera, an invalid one changes nothing, and all stay within the schema; the selection and the dialog flags are kept |
| CameraManagement.CameraPage.OpenEditDialog | src/pages/devices/CameraManagement.tsx:173-184 | selects the camera and fills the form as written, an unset retention becoming 0; every other dialog flag is kept |
| CameraManagement.CameraPage.OnEditSubmit | src/pages/devices/CameraManagement.tsx:186-205 | a valid form edits the selected camera and closes the dialog, and all stay within the schema; an invalid form or no selection changes nothing, the selection and both dialog flags included |
| CameraManagement.CameraPage.OpenDeleteDialog | src/pages/devices/CameraManagement.tsx:207-210 | selects the camera and opens the delete dialog; every other dialog flag is kept |
| CameraManagement.CameraPage.DeleteSelected | src/pages/devices/CameraManagement.tsx:212-221 | removes the selected camera and clears the selection; with nothing selected nothing changes, the selection and both dialog flags included |
| LegacyCamera.Without | src/pages/CameraManagement.tsx:131-138 | deleting keeps exactly the cameras with another id |
| LegacyCamera.DeleteUndoesSubmit | src/pages/CameraManagement.tsx:112-138 | deleting a camera just added with a fresh id restores the list |
| LegacyCamera.LegacyCameraPage.constructor | src/pages/CameraManagement.tsx:71-92 | the page starts on its seed cameras with the delete dialog closed and nothing pending |
| LegacyCamera.LegacyCameraPage.OnSubmit | src/pages/CameraManagement.tsx:112-124 | a valid form appends the camera, an invalid one changes nothing |
| LegacyCamera.LegacyCameraPage.OpenDeleteDialog | src/pages/CameraManagement.tsx:126-129 | marks the camera as pending deletion and opens the dialog |
| LegacyCamera.LegacyCameraPage.DeleteCamera | src/pages/CameraManagement.tsx:131-138 | a pending non-empty id is deleted and cleared, and otherwise nothing changes |
| LegacyCamera.DeleteRoundTrip | src/pages/CameraManagement.tsx:126-138 | opening the dialog for a camera and confirming removes exactly that camera and closes the dialog |
| Auth.MergeNotifications | src/store/slices/authSlice.ts:57-72 | each notification setting takes the patch's value when given and keeps its own otherwise |
| Auth.MergeProfile | src/store/slices/authSlice.ts:47-56 | each profile field takes the patch's value when given and keeps its own otherwise |
| Auth.WithNotifications | src/store/slices/authSlice.ts:57-72 | a settings update changes only the notifications, merged field by field |
| Auth.EmptyPatchesAreIdentity | src/context/AuthContext.tsx:97-132 | an empty profile or settings patch changes nothing |
| Auth.MergesIdempotent | src/context/AuthContext.tsx:97-132 | applying the same patch twice is the same as once |
| Auth.NotificationMergesCompose | src/store/slices/authSlice.ts:57-72 | two successive settings updates equal one update with the later values winning |
| Auth.Storage.constructor | src/store/slices/authSlice.ts:73-84 | storage starts holding whatever was saved |
| Auth.Storage.SetItem | src/store/slices/authSlice.ts:35-40 | saving a profile makes it the stored one |
| Auth.Storage.RemoveItem | src/store/slices/authSlice.ts:41-46 | removing leaves nothing stored |
| AuthSlice.AuthStore.constructor | src/store/slices/authSlice.ts:22-26 | the slice starts signed out, with no user, not loading |
| AuthSlice.AuthStore.SetLoading | src/store/slices/authSlice.ts:32-34 | sets the flag only |
| AuthSlice.AuthStore.LoginSuccess | src/store/slices/authSlice.ts:35-40 | signs in as the default user and saves it |
| AuthSlice.AuthStore.Logout | src/store/slices/authSlice.ts:41-46 | signs out and clears storage |
| AuthSlice.AuthStore.UpdateUserProfile | src/store/slices/authSlice.ts:47-56 | a signed-in profile is merged with the patch and saved, and without a user nothing changes |
| AuthSlice.AuthStore.UpdateNotificationSettings | src/store/slices/authSlice.ts:57-72 | a signed-in user's settings are merged and saved, and without a user nothing changes |
| AuthSlice.AuthStore.CheckAuth | src/store/slices/authSlice.ts:73-84 | restores exactly the stored user and is signed in exactly when one is stored |
| AuthSlice.LoginThenRestore | src/store/slices/authSlice.ts:35-84 | a login survives a reload |
| AuthSlice.LogoutThenRestore | src/store/slices/authSlice.ts:41-84 | a logout survives a reload |
| AuthContext.Restored | src/context/AuthContext.tsx:50-69 | the session restored on mount holds exactly the stored user, is signed in exactly then, and is not loading |
| AuthContext.AuthProvider.constructor | src/context/AuthContext.tsx:31-35 | the provider starts signed out, with no user, and not loading |
| AuthContext.AuthProvider.CheckAuth | src/context/AuthContext.tsx:50-69 | mounting restores the session from storage |
| AuthContext.AuthProvider.Login | src/context/AuthContext.tsx:71-86 | every login succeeds as the default user and is saved |
| AuthContext.AuthProvider.Logout | src/context/AuthContext.tsx:88-95 | signs out and clears storage |
| AuthContext.AuthProvider.UpdateUserProfile | src/context/AuthContext.tsx:97-111 | a signed-in profile is merged and saved, and without a user nothing changes |
| AuthContext.AuthProvider.UpdateNotificationSettings | src/context/AuthContext.tsx:113-132 | a signed-in user's settings are merged and saved, and without a user nothing changes |
| AuthContext.LoginThenRemount | src/context/AuthContext.tsx:50-86 | a login survives remounting the provider |
| AuthContext.LogoutThenRemount | src/context/AuthContext.tsx:50-95 | a logout survives remounting the provider |
| UiSlice.UiState.constructor | src/store/slices/uiSlice.ts:9-12 | both menus start closed |
| UiSlice.UiState.OpenDevicesMenu | src/store/slices/uiSlice.ts:18-20 | anchors the devices menu and leaves the user menu alone |
| UiSlice.UiState.CloseDevicesMenu | src/store/slices/uiSlice.ts:21-23 | closes the devices menu and leaves the user menu alone |
| UiSlice.UiState.OpenUserMenu | src/store/slices/uiSlice.ts:24-26 | anchors the user menu and leaves the devices menu alone |
| UiSlice.UiState.CloseUserMenu | src/store/slices/uiSlice.ts:27-29 | closes the user menu and leaves the devices menu alone |
| UiSlice.OpenThenClose | src/store/slices/uiSlice.ts:18-23 | opening and then closing the devices menu restores the state |
| UiSlice.CloseTwice | src/store/slices/uiSlice.ts:21-29 | closing the devices menu a second time leaves the state the first close left: that menu closed, the user menu as before |
| Toast.Hidden | src/components/layout/Layout.tsx:26-28 | hiding closes the toast and keeps its message and severity |
| Toast.Shown | src/components/layout/Layout.tsx:19-24 | showing opens the toast with the message and the given severity, or success by default |
| Toast.HideIdempotent | src/components/layout/Layout.tsx:19-28 | hiding twice is hiding once, and a hidden toast keeps the last message |
| Toast.ToastState.constructor | src/components/layout/Layout.tsx:13-17 | the toast starts closed and empty with success severity |
| Toast.ToastState.ShowToast | src/components/layout/Layout.tsx:19-24 | the toast becomes the shown one |
| Toast.ToastState.HideToast | src/components/layout/Layout.tsx:26-28 | the toast becomes the hidden form of the old one |

## Left out

- Rendering, routing components, dialogs' markup and tabs. These are presentation, with no state beyond the flags modelled.
- The toasts raised inside the page handlers. `useToast` (`src/components/layout/Layout.tsx:12-31`) is a plain hook, so each page's `showToast` sets that page's own toast state, which the page never renders; the only Snackbar is the Layout's, and it shows the Layout's own toast, which nothing opens. As written, those toasts never appear, so the page models leave them out, and `Toast.ToastState` models the hook's state on its own.
- The `dataTransmission` series that `fetchDevices` fills with `Math.random()` (`src/store/slices/deviceSlice.ts:119-163`). Randomness and floating point are not modelled. Only the statistics part of the reducer is.
- `localStorage` and its JSON serialisation. `Storage` holds the profile value directly, and a malformed saved string is not modelled.
- Zod's `.email()` and `.ip()` checks. They are library code, so each submit takes them as a predicate parameter.
- Numbers are unbounded integers. Fractional values, `NaN`, and `z.coerce.number()` turning form strings into numbers are not modelled.
- A partial update whose spread explicitly carries `undefined`. Absent patch fields are `None`, and present ones always hold a value.
- `Date.now()` and `toISOString()`. The current time and fresh ids are parameters.
- Dashboard.SortNewestFirst: the stability of `Array.prototype.sort` on equal timestamps is not stated, only that the result is a newest-first permutation.
- Every length rule (`TenantManagement.NameAccepted`, the user form's name rule, and the `FormAccepted` predicates of the sensor, microscope, camera and legacy camera pages) counts Unicode scalar values, because strings here are sequences of them. Zod's `.min(n)` counts UTF-16 code units, so a name that is one character outside the Basic Multilingual Plane passes `.min(2)` in the program and fails here.
- TenantManagement.TenantManagementPage.OnAssignUserSubmit requires the chosen id to be empty or an existing user, rather than one of the offered users. The select only offers existing users (`TenantManagement.OfferedUserExists`).
- TenantManagement.TenantManagementPage.OnCreateSubmit preserves consistency only when the new id is fresh. The page takes `Date.now()` as the id, which is assumed distinct from every existing id.
- The Navbar, UserMenu, Home, Login, ProfileSettings and CameraParameters pages, and the store wiring in `src/store/index.ts`. These are not part of this model.

## Findings

| source | as written | input that shows it | evidently intended | confidence | as-written member | corrected member |
|---|---|---|---|---|---|---|
| src/pages/TenantManagement.tsx:49-53 | the assign form's `userId` is `z.string()` with no minimum, so submitting without choosing a user passes validation and links the tenant to user id `""` | seed tenants and users, tenant "1" selected, `userId = ""` | an empty selection is rejected, so only existing users are linked | not executed | TenantManagement.EmptySelectionBreaksConsistency | TenantManagement.AcceptedSelectionKeepsConsistency |
| src/pages/devices/CameraManagement.tsx:180 | the edit dialog fills an unset `storageRetention` with `0`, which the schema's `.min(1)` (line 50) rejects, so such a camera cannot be saved without typing a retention | a camera whose `storageRetention` is undefined; none arises on this page as written, because every seed camera has one and the create field coerces a cleared value to 0, which `.min(1)` rejects, so the defect is latent for the page's own cameras | the unset retention stays unset, and the unchanged form is accepted | not executed | CameraManagement.UnsetRetentionBlocksEdit | CameraManagement.EditUnchanged |
