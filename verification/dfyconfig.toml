# Verification model of the Gravital Talk protocol core.
includes = ["**/*.dfy"]
